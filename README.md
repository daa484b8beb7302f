# The Ordinary shop back end: cart, ratings, skin-analysis parsing, product and user rules

This project is a Dafny model of the logic inside an Express/Mongoose back end
for a skincare shop. It covers:

- **The shopping cart.** A cart is owned by an authenticated user (`userId`) or
  by a guest session (`guestId`). The cart endpoints add or replace a line,
  remove a line, merge a guest cart into a user cart at login, and check out.
  The router's own `/clear` handler empties a cart. The carts live in one
  collection, modelled as the class `CartStore`. Its invariant holds through
  every operation:
  - every cart's cached `total` is the sum of price times quantity;
  - no product has two lines in one cart;
  - no two carts share an owner key.
- **Ratings.** This covers:
  - validation of a submitted rating;
  - the name a rating is shown under;
  - the stored record;
  - the listings of a product's ratings and reviews, newest first, with
    `page`, `limit`, `skip` and `pages`;
  - the home page's selection of featured reviews, topped up with recent
    reviews.
- **The skin-analysis service.** This covers:
  - the checks done before the generative model is called, and the
    normalisation of the product list sent with the request;
  - the parser that cuts the model's Markdown reply into four sections by
    heading, and reads the skin type and the list of skin concerns from the
    analysis section.
- **Products.** This covers:
  - the file-name sanitiser;
  - the page, skip and filter of the product listing;
  - the document `createProduct` builds, with its comma lists and image URL;
  - the merge `updateProduct` performs, with its choice of image category.
- **Users.** This covers the administrator's `updateUser` and `deleteUser`. The
  update replaces `name`/`email` only with truthy values (`||`) and `isAdmin`
  with any present value (`??`). Its reply never carries the password.

On top of these sit three shared modules:

- `Js` models the JavaScript semantics the code relies on: `undefined`/`null`,
  `||`, `??`, `parseInt(q) || d`, and JSON values.
- `JsString` models `trim`, `split`, `join`, ASCII case folding and search.
- `MongoCursor` models the database cursor's `.skip(k).limit(n)`.

Prices and quantities are integers (the smallest currency unit). A rating value
is a `real`. A string is a sequence of Dafny `char`s, which are Unicode scalar
values, while JavaScript strings hold UTF-16 code units. The two readings give
the same text for every operation here except the file-name sanitiser, which
replaces a character outside the Basic Multilingual Plane one code unit at a
time; `SanitizeFileName` models that explicitly.

## Model

| member | source | states |
|---|---|---|
| Js.StrOr | controllers/userController.js:48-49 | `v \|\| d` on a string yields `v` exactly when it is present and non-empty, else `d` |
| Js.Nullish | controllers/userController.js:50 | `v ?? d` yields any present value, `false` included, and falls back only on `null`/`undefined` |
| Js.IntOr | controllers/ratingController.js:68-69 | `parseInt(q) \|\| d` keeps a parsed non-zero number and falls back on `NaN` and on 0 |
| Js.PagingOf | controllers/ratingController.js:68-70 | page defaults to 1 and limit to the default; neither is ever 0; skip is `(page - 1) * limit`, and is non-negative for a positive page and limit |
| Js.FirstPageSkipsNothing | controllers/productController.js:25-27 | a missing page, page 1 and page 0 all skip nothing, whatever the limit |
| Js.ConsecutivePages | controllers/productController.js:25-27 | the skip of page n + 1 is exactly one limit beyond the skip of page n |
| Js.Get | services/geminiService.js:46-51 | property access has a value exactly on an object holding the key, and it is that field's value |
| Js.JsonOr | services/geminiService.js:46-49 | `v \|\| d` on JSON yields `v` exactly when it is truthy, else `d` |
| JsString.TrimShape | services/geminiService.js:143 | `trim()` gives a string with no whitespace at either end, the input with only whitespace cut from both ends |
| JsString.TrimIdempotent | services/geminiService.js:154 | trimming twice is trimming once |
| JsString.TrimmedIsFixed | controllers/productController.js:109 | a string without surrounding whitespace is its own trim |
| JsString.Split | controllers/productController.js:109 | `split(c)` yields one piece more than there are separators, none containing the separator |
| JsString.JoinSplit | services/geminiService.js:159 | joining the pieces of `split(c)` on `c` gives the string back |
| JsString.SplitJoin | controllers/productController.js:109-113 | splitting a join of separator-free pieces gives the pieces back |
| JsString.SplitTrimPieces | controllers/productController.js:109-113 | split-then-trim gives separator count + 1 pieces, each the trim of its piece, trimmed and free of the separator |
| JsString.FindCIIsFindLowered | services/geminiService.js:131-136 | a case-insensitive search is a plain search on the lowered text and pattern |
| JsString.Find | services/geminiService.js:148 | the first position at or after `from` where the pattern occurs, or -1 when it occurs nowhere there |
| MongoCursor.Limit | controllers/ratingController.js:174 | `.limit(n)` is a prefix of at most \|n\| documents, and all of them when n is 0 |
| MongoCursor.Window | controllers/ratingController.js:73-76 | `.skip(k).limit(n)` holds the documents from position k on, in order, at most \|n\| of them, none when k is past the end |
| MongoCursor.WindowsAdjacent | controllers/productController.js:37-38 | two consecutive windows of n documents make up the window of 2n documents |
| MongoCursor.PagesTile | controllers/ratingController.js:68-76 | pages 1 to k with a positive limit n are exactly the first k·n documents, so nothing is repeated or skipped |
| CartController.CartIdentifier | controllers/cartController.js:5-11 | the owner key is the user id when a user is authenticated, else the session id as a guest key |
| CartController.IdentifierChoice | controllers/cartController.js:5-11 | an authenticated user's key ignores the session; guest keys are equal exactly when the sessions are; user and guest keys never coincide |
| CartController.EmptyCart | controllers/cartController.js:28-30 | a lazily created cart has the caller's key, no items and a zero total |
| CartController.ComputeTotal | controllers/cartController.js:51-54 | the `reduce` loop computes the sum of price times quantity |
| CartController.SumAppend | controllers/cartController.js:166-169 | the total of two lists of lines is the sum of their totals |
| CartController.IndexOf | controllers/cartController.js:202-204 | `findIndex` returns the first line for the product, or -1 when there is none |
| CartController.UpsertPlaces | controllers/cartController.js:33-48 | after an add, the product's line has the given quantity (replaced, not added to) and the current price and name; an existing line stays in place and nothing else moves; a new product is appended; lines stay unique per product |
| CartController.UpsertLastWins | controllers/cartController.js:36-40 | adding the same product twice keeps only the second quantity, price and name |
| CartController.UpsertTotal | controllers/cartController.js:51-54 | after an add, the total loses the old line's amount and gains quantity times the current price |
| CartController.UpsertLine | controllers/cartController.js:33-48 | rewriting the found line in place, or pushing a new one, yields exactly the list Upsert describes |
| CartController.RemoveAt | controllers/cartController.js:211 | `splice(i, 1)` drops line i and keeps the others in order; deleting a cart document is the same operation on the collection |
| CartController.SumRemove | controllers/cartController.js:214-217 | removing a line lowers the total by exactly that line's amount |
| CartController.RemoveFirstMatch | controllers/cartController.js:202-211 | with unique lines, removing the product's line leaves no line for it |
| CartController.MergeInto | controllers/cartController.js:153-163 | the `forEach` loop produces the merge of the guest lines into the user lines, in guest order |
| CartController.MergeQuantities | controllers/cartController.js:153-163 | each product's merged quantity is the user's quantity plus the guest's |
| CartController.MergeUnique | controllers/cartController.js:153-163 | merging never gives a product a second line |
| CartController.MergeShape | controllers/cartController.js:153-163 | the merge is the user's lines in place, each keeping its price and name and raised by the guest quantity, followed by the guest lines for new products in guest order |
| CartController.MergeTotal | controllers/cartController.js:166-169 | when both carts price shared products alike, the merged total is the sum of the two totals |
| CartController.MergeExample | controllers/cartController.js:151-169 | guest {A: 2 at 10} merged into user {A: 1 at 10, B: 1 at 5} gives {A: 3, B: 1} totalling 35 |
| CartController.FindCart | controllers/cartController.js:27 | `findOne` by owner key returns the first cart with that key, or -1 when none has it |
| CartController.FindCartOnly | controllers/cartController.js:27 | with distinct owners the cart found is the only one with its key |
| CartController.RelabelKeeps | controllers/cartController.js:174-179 | handing the guest cart to the user keeps owners distinct; the user key then finds it where it was and the guest key finds nothing |
| CartController.MergeStoreKeeps | controllers/cartController.js:166-173 | saving the merged user cart and deleting the guest cart keeps the store invariant; the guest key is gone and the user cart remains |
| CartController.RemoveCartKeeps | controllers/cartController.js:173 | deleting a cart keeps the invariant and leaves nothing under its key |
| CartController.PutCartKeeps | controllers/cartController.js:27-56 | saving a consistent cart keeps owners distinct and every cart consistent, the cart is then found under its owner key, and a new cart adds exactly one document |
| CartController.CartStore.GetCart | controllers/cartController.js:89-104 | a signed-in user gets the items and total of the cart filed under their id and a guest with a session id the session's cart; a caller without such a cart, or with neither id, gets `{ items: [], total: 0 }`, so a signed-in user without a cart never sees the session's cart; a stored cart's total is its items' sum |
| CartController.SignedInIgnoresSession | controllers/cartController.js:89-95 | a signed-in user's view of the cart is the same whatever session id comes with the request |
| CartController.CartStore.AddToCart | controllers/cartController.js:13-56 | an unknown product is a 404 with no change; otherwise the owner's cart, created at the end if missing, gets the upserted lines and the recomputed total; nothing else changes; the invariant holds and `getCart` then returns the reply |
| CartController.CartStore.RemoveFromCart | controllers/cartController.js:187-220 | a missing cart or a product not in it is a 404 with no change; otherwise the first line for the product is removed, the total recomputed, and nothing else changes |
| CartController.CartStore.Checkout | controllers/cartController.js:110-134 | a missing or empty cart is a 400 with no change; a user's cart is emptied with total 0; a guest's cart is returned unchanged with a request to log in |
| CartController.CartStore.MergeCarts | controllers/cartController.js:140-181 | no guest cart changes nothing; with both carts the user cart takes the merge and recomputed total and the guest cart is deleted; with only a guest cart it is relabelled in place, items and total untouched |
| CartRoutes.FindByUserField | routes/cartRoutes.js:31 | `findOne({ user })` with the filter sent as written returns the first cart whose `user` field is the id, or -1 |
| CartRoutes.FindStripped | routes/cartRoutes.js:31 | the same query once `strictQuery` has removed the undeclared `user` path: the first cart of a non-empty collection, none of an empty one |
| CartRoutes.ClearAt | routes/cartRoutes.js:32-36 | the found cart gets no items and a zero total, and every other cart is unchanged; with no cart found nothing changes |
| CartRoutes.ClearAtKeeps | routes/cartRoutes.js:32-36 | emptying a cart keeps the store invariant |
| CartRoutes.ClearAsWritten | routes/cartRoutes.js:29-41 | the handler as written looks the cart up by the `user` field, empties what it finds, and always replies with an empty cart |
| CartRoutes.ClearAsWrittenChangesNothing | routes/cartRoutes.js:31 | in any collection the cart operations produce, the as-written lookup finds nothing and the clear changes nothing |
| CartRoutes.ClearAsWrittenKeepsItems | routes/cartRoutes.js:31 | a user with a one-line cart still has that line after the as-written clear, while a lookup by `userId` would empty it |
| CartRoutes.ClearStripped | routes/cartRoutes.js:29-41 | the handler under the stripped filter empties the collection's first cart, changes nothing else, and always replies with an empty cart |
| CartRoutes.ClearStrippedEmptiesAnother | routes/cartRoutes.js:31-35 | under the stripped filter, user `u1` clearing empties the first cart, owned by `u2`, and `u1`'s own line remains |
| CartRoutes.Clear | routes/cartRoutes.js:29-41 | the corrected handler empties the caller's `userId` cart, changes nothing else, keeps the invariant, and `getCart` then shows an empty cart |
| RatingController.CheckBody | controllers/ratingController.js:25-31 | a body passes exactly when it has a product id and a rating from 1 to 5; missing fields are reported before the range |
| RatingController.LocalPart | controllers/ratingController.js:20 | `email.split('@')[0]` is the prefix of the email before its first `@`, or the whole email without one |
| RatingController.DisplayName | controllers/ratingController.js:13-22 | the name shown is the account's name, else its email's local part, else the supplied name, else "Anonymous", and is never empty |
| RatingController.AnonymousFallback | controllers/ratingController.js:13 | without an account the supplied name is used, and "Anonymous" when none is supplied |
| RatingController.EmailStartingWithAt | controllers/ratingController.js:20 | an account with no name and an email starting with `@` falls back to the supplied name |
| RatingController.RatingStore.CreateOrUpdateRating | controllers/ratingController.js:9-46 | a rejected body is a 400 and an unknown product a 404, both adding nothing; otherwise exactly one unfeatured rating is appended, carrying the display name and the review, or `''` when none was given; ratings stay from 1 to 5 with a name |
| RatingController.Select | controllers/ratingController.js:73 | `find(q)` holds exactly the stored ratings that match the query |
| RatingController.SelectAppend | controllers/ratingController.js:73 | selection keeps storage order: the matches of two runs of ratings are the matches of the first followed by those of the second |
| RatingController.SelectOne | controllers/ratingController.js:73 | a single rating is selected once when it matches and not at all otherwise, so equal ratings are each kept |
| RatingController.NewestFirst | controllers/ratingController.js:74 | `sort({ createdAt: -1 })` puts the most recently stored first |
| RatingController.NewestFirstSameElements | controllers/ratingController.js:74 | sorting neither adds nor drops ratings |
| RatingController.PagesCount | controllers/ratingController.js:86 | `pages` is the least integer not below total / limit |
| RatingController.PagesCountBounds | controllers/ratingController.js:86 | with a positive limit, `pages` pages hold all the ratings and one page fewer does not |
| RatingController.PageNonEmptyUpToPages | controllers/ratingController.js:70-86 | with a positive limit a page has ratings exactly when its number is at most `pages` |
| RatingController.Paginate | controllers/ratingController.js:68-88 | a negative skip is a server error, and only then; otherwise the page is the window of the newest-first matches, with the total of all matches, the page number and `pages`; count is the page's size, at most \|limit\| |
| RatingController.ProductRatings | controllers/ratingController.js:65-88 | every listed rating is a stored rating of the product |
| RatingController.ProductReviews | controllers/ratingController.js:98-127 | every listed review is a stored rating of the product with non-empty text |
| RatingController.DefaultListing | controllers/ratingController.js:68-70 | without query parameters the first page lists the ten newest matches |
| RatingController.PoolsHold | controllers/ratingController.js:169-182 | the featured pool holds featured stored ratings with text, the other pool unfeatured ones with text |
| RatingController.FeaturedReviewsShape | controllers/ratingController.js:166-188 | at most \|limit\| reviews; first the newest featured ones, then the newest others, and a top-up only when fewer than `limit` were featured |
| RatingController.FeaturedReviewsContent | controllers/ratingController.js:169-187 | featured entries come first and none follow, so none appears twice; every entry is a stored rating with text |
| RatingController.FeaturedReviewsCount | controllers/ratingController.js:166-187 | with a positive limit the page shows as many reviews as exist, up to the limit |
| GeminiService.SectionEnd | services/geminiService.js:131-136 | a section runs to the first terminating heading, in any case, at or after its start, or to the end of the reply |
| GeminiService.HeadingEnd | services/geminiService.js:131-136 | a section's text starts just after the first occurrence of its heading, in any case, and is absent without one |
| GeminiService.SectionShape | services/geminiService.js:130-144 | a section is `""` without its heading; otherwise it is the trimmed text between the heading and the next expected heading, with only whitespace cut off and no terminating heading inside |
| GeminiService.SectionHeadingCase | services/geminiService.js:131-136 | the case in which a heading is written does not change the section |
| GeminiService.AllSections | services/geminiService.js:130-137 | the section table gives each of the four sections from its own heading to the next one |
| GeminiService.ParseAnalysisResponse | services/geminiService.js:127-164 | the loop fills in the four sections; skin type and concerns are set exactly when the analysis section is non-empty, and are read from it |
| GeminiService.CaptureEnd | services/geminiService.js:148 | a lazy `.+?(?=\n\|-\|$)` capture ends at the first newline, `-` or end, and fails at a line terminator other than LF |
| GeminiService.CaptureAt | services/geminiService.js:148 | a capture is at least one character, contains no line terminator, and has no stop after its first character |
| GeminiService.FirstCapture | services/geminiService.js:148 | the first position where the marker and its capture match, or -1 when none does |
| GeminiService.LineCapture | services/geminiService.js:148-151 | `match` finds a group exactly when the regex matches somewhere, and it is the group of the first match |
| GeminiService.SkinTypeShape | services/geminiService.js:148-155 | "Not identified" without a `Skin Type:` match; otherwise trimmed text on one line with no `-` after its first character |
| GeminiService.SkinConcernsShape | services/geminiService.js:149-161 | `[]` without a `Skin Concerns:` match; otherwise one trimmed, comma-free piece per comma-separated part of the trimmed capture, which is recovered by joining those parts |
| GeminiService.ArrayOrEmpty | services/geminiService.js:50-53 | `Array.isArray(v) ? v : []` |
| GeminiService.NormalizeEntryShape | services/geminiService.js:45-54 | a normalised product has a truthy id, name and category, the given or an empty description, a `targets` list and a `key_ingredients` list that are each the given array or empty, and normalising it again changes nothing |
| GeminiService.NormalizeProducts | services/geminiService.js:41-55 | the mapping succeeds exactly when every entry is an object, with one normalised product per entry in order, and otherwise fails with "Invalid product entry" |
| GeminiService.PrepareAnalysis | services/geminiService.js:9-61 | the API key, buffer and array checks fail in source order with their messages; a bad entry yields "Failed to process product data: …"; on success the MIME type defaults to "image/jpeg" and the products are the entries, each normalised, in order |
| ProductController.SanitizeFileName | controllers/productController.js:18-20 | the sanitised name has one character per UTF-16 code unit of the input, all of them `[a-z0-9-]` |
| ProductController.SanitizeAppend | controllers/productController.js:19 | the sanitiser works on each part of a name independently |
| ProductController.SanitizeCharwise | controllers/productController.js:19 | character by character, an upper-case ASCII letter is lowered, a lower-case letter or digit kept, any other BMP character becomes one `-` and a character outside the BMP two |
| ProductController.AstralFileName | controllers/productController.js:18-20 | "😀.png" sanitises to "---png" |
| ProductController.SanitizeFixedPoints | controllers/productController.js:19 | the sanitiser leaves a name alone exactly when it is made of `[a-z0-9-]` |
| ProductController.SanitizeIdempotent | controllers/productController.js:19 | sanitising twice is sanitising once |
| ProductController.BuildFilter | controllers/productController.js:29-35 | the filter has `category` exactly when the query category is truthy, and the name-or-category `$or` exactly when the search is truthy, and nothing else |
| ProductController.FilterAdmits | controllers/productController.js:29-38 | a product passes exactly when it is in the given category, if one is given, and its name or category matches the search, if one is given |
| ProductController.Filtered | controllers/productController.js:38 | `find(filter)` holds exactly the stored products the filter admits |
| ProductController.FilteredAppend | controllers/productController.js:38 | filtering keeps storage order: the products admitted from two runs are those of the first followed by those of the second |
| ProductController.FilteredOne | controllers/productController.js:38 | a single product is kept once when admitted and not at all otherwise |
| ProductController.GetAllProducts | controllers/productController.js:23-47 | a search pattern that does not compile, or a negative skip, is a 500 and nothing else is; otherwise the page is the window of the matching products and the total counts all matches |
| ProductController.ProductPage | controllers/productController.js:25-38 | with a positive limit, page p is the window of `limit` matching products after the first (p - 1) * limit |
| ProductController.ConsecutiveProductPages | controllers/productController.js:25-38 | with a positive limit, page n + 1 continues exactly where page n stops |
| ProductController.SlashesForward | controllers/productController.js:101 | `.replace(/\\/g, "/")` turns each backslash into `/` and changes nothing else |
| ProductController.ImageUrlShape | controllers/productController.js:99-101 | the image URL has no backslash, and with separator-free category and file name it splits back into its four segments |
| ProductController.CommaList | controllers/productController.js:109-113 | the stored list has one entry per comma-separated piece, each the trimmed piece as a string |
| ProductController.CommaListShape | controllers/productController.js:109-113 | every stored entry is trimmed and comma-free, and a list of such entries written with commas reads back unchanged |
| ProductController.Pick | controllers/productController.js:63-71 | the destructured body fields are those present among the names given |
| ProductController.CreateProduct | controllers/productController.js:61-181 | no image is a 400; a non-string category, targets or key ingredients is a 500; otherwise the object handed to `new Product` holds the copied fields, the split lists and the image URL, and nothing else |
| ProductController.NewProduct | controllers/productController.js:104-115 | the object literal handed to `new Product` has the copied body fields unchanged, the comma-split target and ingredient lists and the image URL, and no other field |
| ProductController.ImageCategory | controllers/productController.js:215-231 | the category a new image is filed under is the body's category when truthy, else the stored one |
| ProductController.UpdateProduct | controllers/productController.js:184-248 | an unknown product is a 404; without an image the body overrides the stored fields; with one, a non-string chosen category is a 500, else the image URL is added; the update document is the stored fields overridden by the body |
| ProductController.ImageCategoryFallback | controllers/productController.js:215-234 | a new image goes under the body's non-empty category, else under the stored category |
| ProductController.EmptyUpdateKeeps | controllers/productController.js:238-242 | an empty update without an image leaves the product as it was |
| UserController.Merged | controllers/userController.js:48-50 | name and email are replaced only by truthy values and `isAdmin` by any present value; id and password stay |
| UserController.EmptyNameKeptFalseAdminApplied | controllers/userController.js:48-50 | an empty name is ignored while `false` revokes the administrator flag |
| UserController.MergedIdempotent | controllers/userController.js:48-50 | applying the same update twice is applying it once |
| UserController.EmptyUpdateKeeps | controllers/userController.js:48-50 | an update with no fields changes nothing |
| UserController.LaterUpdateWins | controllers/userController.js:48-50 | of two updates in a row, the later one wins on every field it sets |
| UserController.PublicView | controllers/userController.js:53-58 | the reply carries exactly the id, name, email and administrator flag |
| UserController.PublicViewHidesPassword | controllers/userController.js:53-58 | the reply does not depend on the password |
| UserController.UserStore.UpdateUser | controllers/userController.js:40-58 | an unknown id is a 404 with no change; otherwise only that user's record is replaced by the merge, and the reply is its public view |
| UserController.UserStore.DeleteUser | controllers/userController.js:27-33 | an unknown id is a 404 with no change; otherwise exactly that user is removed and the reply confirms it |

## Left out

- Database access is modelled as in-memory collections.
  - Mongoose queries, `save`, `deleteOne`, `findByIdAndDelete` and `findByIdAndUpdate` become updates of a `seq` or a `map`.
  - Casting and schema validation at save time are not modelled. This includes the rating schema's trimming and 500-character limit on reviews, and the product schema's enums and required fields. `models/Cart.js` and `models/User.js` are not part of this model.
  - An error thrown by the database (the 500 replies of the catch blocks) is modelled only where the model itself can cause it: a negative skip, a regular expression that does not compile, or `path.join` or `split` on a value that is not a string.
- `populate` and the response reshaping built on it are not modelled. This covers `controllers/cartController.js:59-77` and `223-236`, and the product fields attached to featured reviews. `AddToCart` and `RemoveFromCart` reply with the stored lines instead.
- Timestamps (`updatedAt`, `createdAt`) are not modelled. "Newest first" is the reverse of insertion order.
- Several inputs are parameters of the model:
  - `Product.findById` is a catalogue map or a set of ids;
  - `User.findById` is an optional account;
  - the authenticated user is an optional id;
  - `parseInt` results are `Option<int>`, with `NaN` as `None`.
- Query parameters that arrive as arrays are not modelled.
- The regular-expression engine for the product search is a parameter, `Regex`. Whether a pattern compiles and whether it matches are not modelled. The `getAllUsers` search of `controllers/userController.js:4-23` is left out for the same reason.
- `getProductById`, `deleteProduct`, `getAverageRating` and the rating average (`$avg` with `toFixed(1)`) are left out. They are database reads or floating-point aggregates with no logic of their own.
- File-system work is not modelled: directory creation, moving and deleting images, server.js and setup.js.
- The subscriber e-mail and its templating are not modelled.
- The generative-model calls are not modelled: the chatbot, the chat echo, the skin-analyzer controller, and the network part of `analyzeSkinWithGemini` (prompt, base64 encoding, `generateContent`).
- JWT, bcrypt, the authentication middleware, route wiring apart from `/clear`, multer and the boot code are left out.
- Concurrent requests and their last-writer-wins races are not modelled.
- JavaScript number rounding is not modelled. Totals are exact integer sums.
- The code does not validate quantity, and neither does the model: any integer is accepted.
- ProductController.ImageUrl: `path.join` is modelled as joining on `/` without normalising `.`, `..` or repeated separators.
- GeminiService.ParseAnalysisResponse: the reply is always a string. So the catch path of `services/geminiService.js:165-175` is not modelled, since it only runs for a reply that is not one.
- GeminiService.NormalizeEntry: only objects have named properties, so the fields of an array entry all take their defaults.
- ProductController.NewProduct: the object literal is modelled, not the stored document. Mongoose adds the defaults of `models/Product.js:14-36` (stock 0, stockStatus "In Stock", averageRating 0, ratingCount 0, empty lists), and these are not modelled.
- ProductController.CreateProduct: the reply holds the object literal of `NewProduct`, without the schema defaults `new Product` adds.
- ProductController.UpdateProduct: the update document is `stored + body`. `findByIdAndUpdate` in strict mode drops body keys that are not schema paths, and runs the validators; neither is modelled, so a key outside the schema stays in the model's result.
- CartRoutes.FindByUserField: sends the `{ user }` filter as written. That is what Mongoose does when `strictQuery` is off (Mongoose 5, or 7 and later) or when the Cart schema declares `user`. `models/Cart.js` and the Mongoose version are not part of this model, so `FindStripped` models the other reading, the Mongoose 6 default, where the path is stripped.
- UserController.UserStore.UpdateUser: body values that are not strings, or `isAdmin` values that are not booleans, are not modelled. In the source these would be cast by the schema.

## Findings

| source | as written | input that shows it | evidently intended | confidence | as-written member | corrected member |
|---|---|---|---|---|---|---|
| routes/cartRoutes.js:31 | `DELETE /clear` looks the cart up by a `user` field, which no cart operation ever writes, yet the reply always says the cart is empty. If the filter is sent as written (`strictQuery` off, or `user` declared in the Cart schema, which is not part of this model), the caller's cart is never found and never emptied. If `strictQuery` strips the undeclared path (the Mongoose 6 default), the query is `findOne({})` and the first cart in the collection is emptied, whoever owns it | the collection `[Cart(User("u1"), None, [LineItem("p1", 2, 10, "Serum")], 20)]`, cleared for user `u1`: the line for `p1` remains; under the stripped filter, a collection whose first cart belongs to `u2` loses that cart's lines instead | look the cart up by `userId`, as every cart controller operation does | not executed | CartRoutes.ClearAsWritten, CartRoutes.ClearAsWrittenKeepsItems, CartRoutes.ClearStripped, CartRoutes.ClearStrippedEmptiesAnother | CartRoutes.Clear |
