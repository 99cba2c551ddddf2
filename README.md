# NodeJS-Project shop core, modelled in Dafny

This project models the logic inside a small Express/MongoDB e-commerce app:

- the per-user cart ledger of `models/user.js`;
- the catalogue pagination, checkout total, order snapshot and invoice check of `controllers/shop.js`;
- the owner-scoped listing, add, edit and delete of `controllers/admin.js`;
- the password-reset token lifecycle, signup and login gate of `controllers/auth.js`;
- the `Cookie` header parser of `utils/getCookies.js`.

Modules, one per file:

- `Wrappers`: `Option`.
- `Domain`: ids, `Product`, `CartItem`, `OrderItem`, `Order`, the handler `Response`, `findById`.
- `Cart`: the cart operations on values, with their lemmas.
- `UserModel`: the `User` record as a class whose cart methods update `items` in place.
- `Database`: a `Store` class holding the products in insertion order, the orders by id, and the image files on disk as a set of paths. Uploads that multer stores are added to that set, and files that `deleteFile` unlinks are removed.
- `Pagination`: the skip/limit arithmetic and the page-link flags.
- `Shop`, `Admin`, `Auth`: the handlers of the three controllers.
- `Cookies`: JavaScript's `split`, the key/value destructuring and the dictionary-filling loop.

How the model treats the outside world:

- Handlers that write records are methods with `modifies` frames on the store and user objects.
- Accumulator loops (`totalSum`, the invoice `totalPrice`, the cookie `forEach`) are `while`/`for` loops. Each is proved against a function (`Total`, `Parsed`/`LastValue`).
- Time, the random token, the bcrypt hash, validation results and the uploaded file are parameters.
- A `save` is a commit that cannot fail.

## Model

| member | source | states |
|---|---|---|
| Domain.FindProduct | controllers/admin.js:173-174 | `findById` gives a product of the store with that id, and nothing exactly when no product has it |
| Cart.QuantityOf | models/user.js:44 | the quantity recorded for a product is that of an entry with its id, 0 when the cart has none, and at least 1 in a well-formed cart that has one |
| Cart.IndexOf | models/user.js:22 | `findIndex` gives the first entry with the id, or -1 exactly when the cart has no entry for it |
| Cart.Added | models/user.js:22-25 | an existing entry keeps the length and is the only entry that may change; otherwise `{id, 1}` is appended at the end; afterwards the cart has an entry for the id |
| Cart.AddedQuantity | models/user.js:22-25 | adding raises the recorded quantity of that product by exactly 1 and leaves every other product's quantity unchanged |
| Cart.AddPreservesWellFormed | models/user.js:19-25 | adding keeps product ids unique and every quantity at least 1 |
| Cart.Removed | models/user.js:52 | an entry survives the filter exactly when its product is not the removed one; the removed product has no entry left |
| Cart.RemovedIsSubsequence | models/user.js:52 | the surviving entries keep their original relative order |
| Cart.SubsequenceWellFormed | models/user.js:52 | dropping entries from a well-formed cart leaves it well formed |
| Cart.RemovePreservesWellFormed | models/user.js:51-52 | removing keeps product ids unique and quantities at least 1 |
| Cart.RemoveAbsentIsNoOp | models/user.js:52 | removing a product with no entry leaves the cart identical |
| Cart.RemovedQuantity | models/user.js:52 | after removal the product's quantity is 0 and every other product's quantity is as before |
| Cart.RemoveAfterAdd | models/user.js:22-52 | removing a product after adding it gives the same cart as removing it without the add |
| Cart.AddTwiceToEmpty | models/user.js:20-25 | adding one product twice to an empty cart gives the single entry `{id, 2}` |
| Cart.Joined | models/user.js:37-45 | every `getCart` record is a store product with a cart entry and carries that entry's quantity; every store product with an entry yields such a record; the records' products are the store's products in store order, each at most once |
| Cart.JoinedEntry | models/user.js:39-45 | an entry whose product exists yields a record with the entry's quantity; an entry whose product is gone yields no record |
| UserModel.User.constructor | controllers/auth.js:86-90 | a new user has the given email and hashed password, no reset token and an empty cart |
| UserModel.User.AddToCart | models/user.js:19-25 | a null product (what `findById` gives for an unknown id) fails with the cart unchanged; otherwise a missing items array becomes empty first, the new cart is `Added` of the old one and the product's quantity rises by 1; the cart invariant is kept |
| UserModel.User.RemoveFromCart | models/user.js:51-52 | succeeds exactly when the items array exists, then the cart is `Removed` of the old one with the invariant kept; otherwise nothing changes |
| UserModel.User.ClearCart | models/user.js:60-61 | the cart is empty afterwards, whatever it held, and so satisfies the invariant |
| UserModel.User.GetCart | models/user.js:34-45 | `[]` without an items array; otherwise the join of the entries with the store |
| Pagination.PageNumber | controllers/shop.js:14 | the page is the numeric parameter, and 1 when it is absent, not a number or 0 |
| Pagination.PageSlice | controllers/shop.js:19-21 | at most 2 products, those starting at offset `(page - 1) * 2` |
| Pagination.LastPage | controllers/shop.js:32 | the smallest page count whose pages hold every product, 0 for an empty listing |
| Pagination.Paginate | controllers/shop.js:13-33 | a page below 1 is a store error; otherwise the page's slice, `hasNextPage` exactly when the next page has products, `nextPage`/`previousPage` one either side, `hasPreviousPage` exactly when the previous page is at least 1, `lastPage` the ceiling of the product count over 2, and products exactly on pages up to `lastPage` |
| Pagination.PagesFromCover | controllers/shop.js:19-32 | the pages from a given page on, concatenated, are the products from its offset on, and there are `lastPage - page + 1` of them |
| Pagination.PagesCover | controllers/shop.js:19-32 | following the page links from 1 to `lastPage` lists every product exactly once, in store order |
| Shop.ProductListing | controllers/shop.js:41-61 | the listing errs exactly for a negative page number; otherwise it shows the store's slice at offset `(page - 1) * 2`, at most two products, for the page number of the query (1 when absent, not a number or 0), with that `currentPage`, the next and previous page numbers, `hasPreviousPage` exactly when the page is above 1, `hasNextPage` exactly when products remain after it, and `lastPage` the ceiling of the product count over 2; without a page parameter it shows the first two |
| Shop.PostCart | controllers/shop.js:97-108 | an id with no product answers 500 and leaves the cart as it was; otherwise the reply redirects to /cart and the product's quantity in the cart rises by 1, with the cart invariant kept |
| Shop.Populate | controllers/shop.js:196 | one populated entry per cart entry, with its quantity; the product is null exactly when no store product has the entry's id, and otherwise a store product with that id |
| Shop.Snapshot | controllers/shop.js:196-197 | one order item per cart entry, in cart order, copying its product's id, title and price and the entry's quantity |
| Shop.Total | controllers/shop.js:237-241 | the Σ price × quantity is never negative when no price or quantity is |
| Shop.SnapshotTotal | controllers/shop.js:125-128 | when every entry's product exists, the snapshot totals Σ price × quantity over the cart entries at the store's current prices |
| Shop.LineItems | controllers/shop.js:133-141 | one payment line item per cart entry, in cart order, with the product's title and description, the amount `price * 100`, the currency "usd" and the entry's quantity |
| Shop.ChargeMatchesTotal | controllers/shop.js:125-141 | the line items' amounts (`price * 100`) times their quantities sum to 100 times the displayed `totalSum` |
| Shop.Checkout | controllers/shop.js:122-141 | with the payment session assumed to succeed, succeeds exactly when the items array exists and every entry's product exists; `totalSum` is the Σ price × quantity of the snapshot; the line items are one per entry |
| Shop.PlaceOrder | controllers/shop.js:161-175 | a missing items array or a vanished product writes nothing; otherwise exactly one new order holds the snapshot and the acting user's id and email, then the cart is empty |
| Shop.GetInvoice | controllers/shop.js:216-243 | a missing order and another user's order are refused with their messages; the buyer gets the stored items and their Σ price × quantity |
| Shop.InvoiceOfPlacedOrder | controllers/shop.js:163-174 | the order a checkout creates has one item per cart entry with its product and quantity, and totals Σ price × quantity over the cart entries at the prices of that moment |
| Shop.CheckoutExample | controllers/shop.js:125-128 | a cart of A (price 10) added twice and B (price 5) added once has two entries and totals 25 |
| Admin.Owned | controllers/admin.js:84-88 | exactly the store's products owned by the actor, in store order, each as often as in the store (the multiset of the result is that of the store restricted to the actor) |
| Admin.OwnListing | controllers/admin.js:80-102 | the listing errs exactly for a negative page number; otherwise it shows the slice at offset `(page - 1) * 2`, at most two products, of the actor's own products, for the page number of the query (1 when absent, not a number or 0), with that `currentPage`, the next and previous page numbers and `hasPreviousPage` exactly when the page is above 1; `lastPage` and `hasNextPage` are computed from the actor's product count |
| Admin.Uploaded | app.js:59-71 | an accepted upload is added to the files on disk and nothing else changes; without one the files stay as they were |
| Admin.PostAddProduct | controllers/admin.js:23-62 | no image gives 422 "Attached file is not an image"; validation errors give 422 with the first message; in both cases no product is created; otherwise one product is appended with the uploaded path and the actor as owner; ids stay unique; an accepted upload stays on disk on every path |
| Admin.OwnedIndex | controllers/admin.js:151 | finds a product with that id and that owner, or -1 exactly when there is none |
| Admin.Edited | controllers/admin.js:153-157 | title, description and price are replaced; the image path changes only when a file was uploaded; id and owner are kept |
| Admin.PostEditProduct | controllers/admin.js:133-161 | validation errors re-render and change nothing; a product that is missing or not owned redirects to "/" and changes nothing; otherwise that product alone is edited in place, and the old image file is deleted only when a new one was uploaded; an accepted upload stays on disk on every path |
| Admin.WithoutOwned | controllers/admin.js:178 | a product is kept exactly unless it has that id and is owned by the actor; the kept products stay in store order; with no such product the store is unchanged |
| Admin.WithoutOwnedUnique | controllers/admin.js:178 | removal keeps product ids unique |
| Admin.DeleteProduct | controllers/admin.js:169-186 | a missing product is an error and changes nothing; otherwise the image file is deleted whoever owns the product, the product is removed only if owned, the id is purged from the acting user's cart only, and the reply is 200 or, without an items array, 500 |
| Admin.DeleteByNonOwnerKeepsProduct | controllers/admin.js:173-178 | a delete by a non-owner leaves the products unchanged |
| Auth.Matches | controllers/auth.js:185-188 | the `findOne` filter: the stored token is the given one and the stored expiry is strictly greater than now; a missing expiry never matches |
| Auth.Issued | controllers/auth.js:136-138 | the issued state accepts that token at every time strictly before now + 3,600,000 ms, and no other token |
| Auth.Cleared | controllers/auth.js:194 | the cleared state accepts no token at any time |
| Auth.FindByEmail | controllers/auth.js:130 | the first user with that email, or -1 exactly when there is none |
| Auth.FindByToken | controllers/auth.js:185-189 | the first user whose token matches with an expiry strictly after now, on that id if one is given; -1 exactly when there is none |
| Auth.ResetResponsesAsWritten | controllers/auth.js:124-154 | the responses the handler as written attempts: one when `randomBytes` succeeds, the redirect to "/" for a known email and to /reset for an unknown one; when it fails, at least two, the first a redirect to /reset and the last an error passed to `next` |
| Auth.RandomFailureRespondsTwice | controllers/auth.js:124-154 | as written, a failed `randomBytes` makes the handler respond more than once: a redirect to /reset, then for an unknown email a second redirect whose headers-already-sent error goes to `next`, or for a known email a `TypeError` on the missing buffer passed to `next` |
| Auth.PostReset | controllers/auth.js:121-141 | a failed `randomBytes` or an unknown email redirects to /reset and changes no user, with the flash for the unknown email; otherwise only the first user with that email gets the token and now + 1 h |
| Auth.GetNewPassword | controllers/auth.js:159-174 | the form is shown exactly when some user's token matches with an expiry strictly after now, and names such a user |
| Auth.SaveNewPassword | controllers/auth.js:192-195 | the matched user gets the new hash and a cleared token; every other user's state and password are unchanged |
| Auth.PostNewPassword | controllers/auth.js:182-199 | without a user matching token, id and deadline, the reply is a redirect to /reset and no state or password changes; otherwise only that user gets the new hash with its token cleared, and the token can never be redeemed for that id again |
| Auth.NoRedeemAfterClear | controllers/auth.js:185-195 | once a user's token is cleared, no token matches that id at any time, given unique ids |
| Auth.PostSignup | controllers/auth.js:68-92 | validation errors give 422 and no user; otherwise one fresh user with the email, the hash, no token and an empty cart is added; ids stay unique |
| Auth.PostLogin | controllers/auth.js:29-49 | validation errors give 422 and leave `isLoggedIn` as it was; otherwise it is set and the reply redirects to "/" |
| Cookies.Split | utils/getCookies.js:8 | at least one piece; the first piece is a prefix of the text |
| Cookies.SplitJoin | utils/getCookies.js:8 | joining the pieces with the separator gives the header back |
| Cookies.SplitPiecesFree | utils/getCookies.js:8 | no piece contains the separator "; " |
| Cookies.Key | utils/getCookies.js:11 | the key is a prefix of the piece and contains no "=" |
| Cookies.Value | utils/getCookies.js:11 | a value contains no "="; without a value the whole piece is the key |
| Cookies.KeyAndValue | utils/getCookies.js:11 | the key contains no "="; a value exists exactly when the piece has an "="; the piece starts with key "=" value, and the value contains no "=" |
| Cookies.PieceWithoutEquals | utils/getCookies.js:11-12 | a piece without "=" is its own key, with an undefined value |
| Cookies.PieceWithOneEquals | utils/getCookies.js:11 | `a=b` gives key `a` and value `b` |
| Cookies.ValueEndsAtSecondEquals | utils/getCookies.js:11 | `a=b=c` gives key `a` and value `b` |
| Cookies.LastValue | utils/getCookies.js:10-14 | a name that no piece has as key is undefined |
| Cookies.LastOccurrenceWins | utils/getCookies.js:12 | when a key repeats, the value of its last piece is the one kept |
| Cookies.Parsed | utils/getCookies.js:9-13 | the dictionary the loop fills has an entry for a name exactly when some piece has that key |
| Cookies.ParsedLookup | utils/getCookies.js:9-14 | the dictionary filled piece by piece holds, for each name, the value of its last piece, and lacks the names no piece has |
| Cookies.GetCookies | utils/getCookies.js:7-15 | without a header, undefined; otherwise the value of the last piece whose key is the name, undefined if none |

## Left out

- Persistence: `save`, `find`, `populate` and `countDocuments` are direct reads and writes of the `Store` and `User` objects. A failed `save` is logged and swallowed in models/user.js (lines 27-31, 53-57, 62-66); the model has no failing save.
- The product store is a sequence in insertion order rather than a map, because skip/limit depend on that order. Product ids are kept unique as the `Store` invariant.
- models/product.js is not part of this model. `Product` has the fields the controllers read and write.
- Checkout's Stripe session is a foreign call. The model keeps the line items it is given, and the session id is left out.
- Shop.Checkout: a rejected or failed payment-session request (controllers/shop.js:130-145) also ends in the 500 of lines 154-157; the model assumes the request succeeds.
- Floating-point prices are left out. Prices are integers in the stored unit, and the Stripe `amount` is kept literally as `price * 100`. Shop.Checkout and Shop.GetInvoice therefore do not model float rounding.
- PDF rendering and streaming in `getInvoice` are I/O. Only the access check and the total are modelled.
- The `deleteFile` unlink callback, which throws on error, is left out. The file store is a set of paths and deletion always succeeds.
- bcrypt hashing, `crypto.randomBytes` and email sending are foreign or I/O. The hash and the token are opaque strings passed in, and a failed `randomBytes` is `token == None`.
- express-validator chains are library code. Their outcome is a list of error messages passed in.
- Sessions, CSRF, flash storage (except the reset flash), routes and the DOM script are plumbing. Of multer, only its effect is modelled: an accepted png/jpeg upload is on disk before the handler runs (Admin.Uploaded). Its file filter is the `image` parameter being present.
- Pagination.PageNumber: a fractional or infinite page parameter is not modelled; the parameter is an integer after unary plus.
- Pagination.Paginate: a page below 1 is modelled as the store refusing the negative skip, which MongoDB does. The handler then answers 500.
- Shop.PlaceOrder: requires an unused order id, standing in for the id the store generates.
- Admin.PostAddProduct: requires an unused product id, for the same reason.
- Auth.PostSignup: requires an unused user id, for the same reason.
- Auth.PostReset: requires the user records to be distinct objects, as the store's documents are.
- Auth.PostNewPassword: requires the same distinctness, and its never-again clause assumes unique user ids.
- Auth.GetNewPassword: with no matching user the handler sends no response at all; the model returns `NoResponse` and does not model the hung request.
- Cookies.GetCookies: names that collide with JavaScript object prototype members (`toString`, `__proto__`) are not modelled; the dictionary is a plain map.
- A malformed id (a Mongo `CastError`) is not modelled; ids are naturals and comparison is equality.
- `deleteProduct` (controllers/admin.js:180) purges only the acting user's cart. Other carts keep the entry, which `getCart` then drops (Cart.JoinedEntry).

## Findings

| source | as written | input that shows it | evidently intended | confidence | as-written member | corrected member |
|---|---|---|---|---|---|---|
| controllers/auth.js:124-154 | after `res.redirect("/reset")` for a failed `randomBytes` there is no `return`, so the handler goes on to look up the user and responds again: for an unknown email a second redirect, which throws because the headers are already sent, so the catch passes that error to `next`; for a known email a `TypeError` on the missing buffer, also passed to `next` | `randomBytes` fails for any email | respond once with the redirect to /reset and change no user | not executed | Auth.ResetResponsesAsWritten | Auth.PostReset |
