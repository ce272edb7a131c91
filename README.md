# for-the-best-queenz, modelled in Dafny

This project models the sequential core of a small e-commerce site in Dafny and proves properties of that model. The site is a storefront with a cart and an admin area. It is backed by JSON files and a folder of uploaded product images.

- **JSON-array stores.** The product, category, order and contact handlers each:
  - load the whole array;
  - find a record by strict `id === parseInt(id)`;
  - check the required fields by JavaScript truthiness;
  - give an added record `max(id) + 1`, or 1 for an empty array;
  - `push`, index-assign or `splice`;
  - write the array back.

  `Store.Collection` holds a file's array and the snapshots written so far. `ProductsApi.ProductStore` also holds the set of files under `public/` and the ordered `unlink`/`writeFile` calls. That is enough to state which uploads are deleted, and when.
- **The three older product handlers** (`api/addProduct.js`, `api/updateProduct.js`, `api/deleteProduct.js`) are in `LegacyProducts`.
- **The orphan sweeper** (`Sweeper.OrphanSweeper`) does three things:
  - it fills the module-level `usedFiles` set from the products array;
  - it deletes every listed local upload or S3 object that is not in the set;
  - it counts the deletions.
- **The browser cart** (`ShopCart.Cart`) keeps items merged by strict id equality. It is mirrored to storage and summarised by the header icon.
- **The storefront list** (`Catalogue`) covers the category-button filter with its slug round trip, the category drop-down, the price and featured sorts, and the guard on the fetched reply.
- **The admin string helpers** (`AdminHelpers`) are `sanitizeInput`, `generateSlug`, `validateEmail` and `validateImageFile`.

JSON values are the datatype `Json.Value`. Objects are maps whose `undefined` properties are dropped, as `JSON.stringify` drops them. Money, ids, quantities and stock are integers. `parseInt`/`parseFloat` either yield an integer or fail (NaN). A NaN stored in a record is written as `null`. Timestamps are the parameter `now`. Which file or S3 deletions fail is a set `failing`: a constant of `ProductsApi.ProductStore`, and a parameter of the sweeper's clean-ups. A failing deletion is still attempted, and the file stays.

Behaviours of the code worth noting:
- Lookups use strict `===` against `parseInt(id)`, so the number's string form never matches.
- The product update validates the submitted payload, not the merged record.
- Product delete unlinks the image before it writes the array.
- `getProducts` ignores its query string.
- A JSON update body carries no upload.

## Model

| member | source | states |
|---|---|---|
| Text.Basename | api/products.js:188 | Node's POSIX `path.basename`: trailing `/` characters are dropped and the part after the last remaining `/` is kept; the result contains no `/` and is no longer than the path (the sweeper applies the same call at scripts/cleanupOrphanedFiles.js:24) |
| Text.Extname | api/products.js:27 | `path.extname`: either empty, or the tail of the basename from its last `.`, which holds no other `.` and no `/` and is shorter than the basename; empty when that dot is the basename's first character or the basename is `..` |
| Text.CategorySlug | api/categories.js:88 | `name.toLowerCase().replace(/\s+/g, '-')`: each whitespace run of the lower-cased name becomes one `-`, so the slug contains no whitespace (the filter buttons use the same rule at js/products.js:45) |
| Store.FindIndex | api/products.js:292 | the index of the first record whose id strictly equals the parsed id, -1 exactly when none does; a NaN id matches nothing |
| Store.Lookup | api/products.js:246-249 | a GET answers 404 exactly when no record matches, otherwise the first matching record |
| Store.MaxId | api/addProduct.js:24 | `Math.max` of the ids is at least every id and is one of them |
| Store.NextId | api/products.js:197-198 | the id an add assigns: 1 for an empty array, else the largest id plus one (Store.NextIdFresh proves it exceeds every id and is the least such integer) |
| Store.NextIdFresh | api/products.js:197-198 | the new id is larger than every existing id (so differs from all), and is 1 + the largest |
| Store.StampedFields | api/addProduct.js:28-36 | a new record's object literal with five named properties plus `createdAt` and `updatedAt`: exactly those seven keys, none `undefined`, each holding its given value, both timestamps the same `now` (the order literal at api/orders.js:90-99 has the same shape) |
| Store.AppendNextId | api/contacts.js:78-91 | pushing a record with the next id keeps ids unique, and a lookup by that id finds exactly the new last record |
| Store.RemoveAt | api/deleteProduct.js:33 | `splice(i, 1)` keeps the records before `i` and shifts the rest down by one |
| Store.RemoveKeepsUnique | api/orders.js:167-177 | deleting keeps ids unique, and the deleted id is then not found |
| Store.ReplaceKeepsUnique | api/categories.js:133-135 | replacing a record with one of the same id keeps ids unique |
| Store.Merge | api/updateProduct.js:37-43 | the shallow merge: payload properties override the old ones, the id stays the matched one, `updatedAt` is the time of the update |
| Store.Collection.constructor | api/addProduct.js:19-21 | a handler starts from the array read from the file, with nothing written |
| Store.Collection.Save | api/addProduct.js:42 | the whole current array is written; the array itself is unchanged |
| Store.Collection.Get | api/categories.js:54-58 | `getCategory` (and `getOrder`, api/orders.js:54-58, and `getContact`, api/contacts.js:51-55): first strict match or 404 |
| Store.Collection.Push | api/addProduct.js:38-42 | the record is appended at the end, everything before it unchanged, and the array written; with the next id, ids stay unique |
| Store.Collection.Assign | api/updateProduct.js:38-46 | only index `i` changes, then the array is written; with the same id, ids stay unique |
| Store.Collection.Delete | api/categories.js:166-179 | `deleteCategory` (and `deleteOrder`, api/orders.js:167-180, and `deleteContact`, api/contacts.js:117-130): 404 with nothing written, else exactly the first match is spliced out, written and returned |
| Json.Truthy | api/products.js:208 | JavaScript truthiness: `undefined`, `null`, `false`, `0` and `""` are falsy; every other value, including an empty array or object, is truthy |
| Json.Or | api/orders.js:96 | `a \|\| b`: `a` when it is truthy, otherwise `b` |
| Json.Put | api/categories.js:133-140 | a later property in an object literal overrides an earlier one; setting `undefined` removes the property |
| Json.Spread | api/updateProduct.js:38-40 | `{...base, ...over}`: every property of `over` wins, the rest come from `base` |
| Json.ParseInt | api/products.js:198 | `parseInt` of a JSON value: a number is itself; a string is read as leading whitespace, a sign, an optional `0x` and the longest digit prefix in that radix; a string with no digit, and every other value, gives `None` (NaN) |
| Json.ParseFloat | api/orders.js:86 | `parseFloat` restricted to integers: leading whitespace, a sign and the longest decimal digit prefix; no digit, or a value that is neither a number nor a string, gives `None` (NaN) |
| Json.ParseIntIgnoresTail | api/deleteProduct.js:23 | `parseInt` reads a leading run of digits and ignores what follows (`"12abc"` is 12) |
| Json.ParseIntNoDigits | api/deleteProduct.js:23 | `parseInt` of text with no leading digits is NaN, so such an id matches no record |
| ProductsApi.UploadPath | api/products.js:187-190 | the upload's public path starts with `/uploads/` and its basename is the stored file's name |
| ProductsApi.ChosenImage | api/products.js:207 | the upload path if there is one, else a truthy given image, else the placeholder; always truthy |
| ProductsApi.OrEmpty | api/products.js:204 | `v \|\| ''`: the value if truthy, else the empty string |
| ProductsApi.NewProduct | api/products.js:200-211 | exactly the eight properties; category/description default to `''`; price is `parseFloat(price) \|\| 0`; a truthy stock is `parseInt(stock)` (NaN stored as `null`), otherwise 0; the image is chosen as above |
| ProductsApi.MergedPrice | api/products.js:332 | a price parsing to NaN or 0 falls back to the old price |
| ProductsApi.MergeProduct | api/products.js:328-337 | the stored id is kept and no `id` property is written; price, stock and image fall back as the handler's `\|\|` chains say |
| ProductsApi.MergeKeepsOtherFields | api/products.js:328-337 | every other property comes from the request body when present there, else from the stored record |
| ProductsApi.StaleImage | api/products.js:322-326 | the old image is a deletion candidate iff it is a non-empty non-`http` string and a new upload with a different path arrived |
| ProductsApi.StaleImageIsNeitherNewNorRemote | api/products.js:347-356 | an update never deletes the file it just stored, a remote image, or anything when no file was uploaded |
| ProductsApi.LocalImage | api/products.js:403 | a deleted product's image is unlinked iff it is a non-empty string not starting with `http` |
| ProductsApi.UploadedPath | api/products.js:178-182 | the path of the request's upload, present exactly when a file came with it |
| ProductsApi.NamesImageType | api/products.js:26 | `/jpeg\|jpg\|png\|gif/.test(s)`: an unanchored search, true when any of the four words occurs anywhere in `s` |
| ProductsApi.FileFilter | api/products.js:25-35 | multer's `fileFilter`: the lower-cased extension of the original file name and the MIME type as sent (not lower-cased) must both contain jpeg, jpg, png or gif |
| ProductsApi.FileFilterNeedsExtension | api/products.js:25-35 | a file name without an extension (or a dot-file) is refused by the upload filter whatever its MIME type |
| ProductsApi.ProductStore.constructor | api/products.js:192-195 | the handler starts from the loaded array, the files on disk and the set of paths whose unlink fails, with no calls made |
| ProductsApi.ProductStore.RemoveFile | api/products.js:181 | an unlink of an optional path, its error swallowed: the call is recorded, the file is gone unless its path is failing, and the array is untouched |
| ProductsApi.ProductStore.WriteProducts | api/products.js:219 | the whole array is written; nothing else changes |
| ProductsApi.ProductStore.GetProducts | api/products.js:142-153 | the whole array, whatever the query |
| ProductsApi.ProductStore.GetProduct | api/products.js:239-257 | the first strict match or 404 |
| ProductsApi.ProductStore.AddProduct | api/products.js:155-237 | missing name or price: 400, the upload's unlink attempted (the file stays if it fails), nothing written; otherwise the new product appended with the next id and the array written; the store invariant is kept |
| ProductsApi.ProductStore.UpdateProduct | api/products.js:259-381 | 404 before 400, both attempting to unlink the upload and writing nothing; otherwise only the matched index is replaced by the merge, the array is written, and only then the stale image's unlink is attempted if it is still on disk; every unlink error is swallowed, and a failing path stays in the folder |
| ProductsApi.ProductStore.StoreUpdated | api/products.js:341-362 | assign in place, write, then attempt the stale image's unlink only if `fs.access` finds it (a failing path stays); a record with the same id and no `id` property keeps the store valid |
| ProductsApi.ProductStore.DeleteProduct | api/products.js:383-429 | 404 with no call; a non-string truthy image gives 500; otherwise a local image's unlink is attempted (its failure is swallowed and the file stays) before exactly the matched record is spliced out and the array written |
| LegacyProducts.LegacyNewProduct | api/addProduct.js:27-36 | seven properties and no `stock`; category/description default to `''`, image to the placeholder, price is `parseFloat` (NaN stored as `null`) |
| LegacyProducts.Add | api/addProduct.js:4-42 | non-POST: 405; missing name or price: 400 with no write; otherwise push with the next id and write |
| LegacyProducts.Update | api/updateProduct.js:4-46 | non-PUT: 405; no `id`: 400 before any read; 404 before the name/price check; otherwise the plain shallow merge (price as supplied) replaces only the matched index |
| LegacyProducts.Delete | api/deleteProduct.js:4-42 | non-DELETE: 405; no `id`: 400; 404 with nothing written; otherwise exactly the matched record is spliced out, returned and written; no file is touched |
| CategoriesApi.NewCategory | api/categories.js:81-92 | name, slug, description, timestamps; the slug is the lower-cased name with each whitespace run made one `-`, and contains no whitespace |
| CategoriesApi.MergeCategory | api/categories.js:133-140 | the shallow merge with id pinned and the slug recomputed from the new name, overriding any submitted slug |
| CategoriesApi.AddCategory | api/categories.js:67-109 | a falsy name: 400 with no write (a non-string name makes `toLowerCase` throw: 500); otherwise push with the next id |
| CategoriesApi.UpdateCategory | api/categories.js:111-154 | 404 before the name check, then 400/500, then only the matched index replaced and written |
| OrdersApi.LineTotal | api/orders.js:85-87 | a line is a number exactly when the item is an object whose price and quantity both parse |
| OrdersApi.AddNaN | api/orders.js:85-87 | NaN-propagating addition |
| OrdersApi.OrderTotal | api/orders.js:84-87 | the `reduce` from 0 that adds `parseFloat(price) * parseInt(quantity)` line by line; the total is NaN exactly when some line does not parse |
| OrdersApi.OrderTotalIsSum | api/orders.js:84-87 | the total is a number iff every line parses, and then it is the sum of `price * quantity` |
| OrdersApi.SumLinesSnoc | api/orders.js:85-87 | summing the lines of a longer list adds the last line |
| OrdersApi.NewOrder | api/orders.js:85-99 | exactly seven properties; name, email and items as submitted; `total` is the order total; `status` defaults to `pending` when falsy; both timestamps are `now` |
| OrdersApi.AddOrder | api/orders.js:67-116 | missing customer name or email, or `items` not an array: 400 with no write; a `null` item: 500; otherwise push with the next id |
| OrdersApi.UpdateOrder | api/orders.js:118-155 | no field check; 404 or the shallow merge at the matched index |
| OrdersApi.UpdateKeepsTotal | api/orders.js:135-141 | an update replacing `items` without a `total` keeps the old total |
| ContactsApi.ContactsRouter | api/contacts.js:8-29 | 405 exactly for methods other than GET, POST and DELETE (PUT included); GET with a truthy id reads one contact |
| ContactsApi.NewContact | api/contacts.js:82-88 | exactly `name`, `email`, `message`, `createdAt`: other payload fields are dropped and there is no `updatedAt` |
| ContactsApi.AddContactTo | api/contacts.js:64-105 | a missing name, email or message: 400 with no write; otherwise push with the next id |
| Sweeper.ContributionOf | scripts/cleanupOrphanedFiles.js:20-31 | a `/uploads/` image adds its basename, an `amazonaws.com` image adds itself, anything else adds nothing; a truthy non-string throws |
| Sweeper.UsedKeys | scripts/cleanupOrphanedFiles.js:20-31 | the set `forEach` builds over products none of which throws: the basename of each truthy image under `/uploads/`, and the whole URL of each other image containing `amazonaws.com` (Sweeper.UsedKeysExactly states its membership in both directions) |
| Sweeper.FirstThrow | scripts/cleanupOrphanedFiles.js:20-31 | the first product whose image makes the `forEach` throw |
| Sweeper.UsedStep | scripts/cleanupOrphanedFiles.js:20-31 | each product adds at most its own contribution to the used set |
| Sweeper.UploadedImageIsUsed | scripts/cleanupOrphanedFiles.js:22-25 | a product pointing at an upload keeps that upload's file in the used set |
| Sweeper.UsedKeysExactly | scripts/cleanupOrphanedFiles.js:20-31 | a key is in the used set if and only if some product contributes it: the basename of an upload image or the URL of an `amazonaws.com` image |
| Sweeper.S3ImageIsUsed | scripts/cleanupOrphanedFiles.js:26-29 | a product whose image is an S3 URL (not under `/uploads/`) keeps that whole URL in the used set, so the S3 sweep never deletes it |
| Sweeper.OrphanIsUnreferenced | scripts/cleanupOrphanedFiles.js:51-53 | every name the sweep tries to delete after a full scan is listed and is contributed by no product |
| Sweeper.OrphansAreUnused | scripts/cleanupOrphanedFiles.js:51-53 | the deletions attempted are exactly the listed names not in use, never more than the listing |
| Sweeper.SweptAreDeleted | scripts/cleanupOrphanedFiles.js:54-62 | the successful deletions are exactly the listed names neither in use nor failing |
| Sweeper.SweepStep | scripts/cleanupOrphanedFiles.js:51-62 | each listed name adds one attempt when unused, and one deletion when unused and its unlink succeeds |
| Sweeper.AttemptsCoverSuccesses | scripts/cleanupOrphanedFiles.js:77-87 | counting attempts never undercounts, and overcounts as soon as one orphan fails to delete |
| Sweeper.OrphanSweeper.constructor | scripts/cleanupOrphanedFiles.js:11 | `usedFiles` starts empty |
| Sweeper.OrphanSweeper.FindUsedFiles | scripts/cleanupOrphanedFiles.js:13-39 | `usedFiles` only grows, by the contributions of the products before the first throw; an empty file reads as `[]`; text that is not a JSON array (malformed, or an object, string, number or `null`) fails with `usedFiles` unchanged |
| Sweeper.OrphanSweeper.CleanLocalUploads | scripts/cleanupOrphanedFiles.js:41-70 | over a listing of the folder's own files (`readdir`), exactly the unused listed names are attempted, files in use are never touched, and the count is the successful unlinks, at most the listing's length |
| Sweeper.OrphanSweeper.CleanS3Uploads | scripts/cleanupOrphanedFiles.js:72-95 | over a listing of the bucket's own objects, the unused listed URLs are attempted and each attempt is counted, failed ones included |
| Sweeper.OrphanSweeper.CleanS3UploadsCounted | scripts/cleanupOrphanedFiles.js:77-87 | the S3 sweep counting only the deletions that succeeded |
| Sweeper.OrphanSweeper.DeleteObject | services/fileStorage.js:63-66 | an S3 delete reports success with `true` and failure with `false`, never by throwing |
| Sweeper.OrphanSweeper.RunCleanup | scripts/cleanupOrphanedFiles.js:97-118 | a throwing product, or products text that is not a JSON array, ends the run before any deletion; otherwise local sweep, and the S3 sweep only when both credentials are set (else a count of 0) |
| ShopCart.StringIdNeverMatchesNumber | js/cart.js:23 | a string id never strictly equals a numeric one |
| ShopCart.FindItem | js/cart.js:23 | the first item whose id strictly equals the given one, or -1 when none does |
| ShopCart.WithoutId | js/cart.js:43 | the kept items are those whose id differs, every such item kept; an id that matches nothing leaves the cart as it is |
| ShopCart.WithoutIdConcat | js/cart.js:43 | removal works piece by piece, so the kept items stay in their order |
| ShopCart.WithoutIdOne | js/cart.js:43 | one item is dropped exactly when its id strictly equals the removed one |
| ShopCart.WithoutIdCount | js/cart.js:43 | a kept item occurs as often as before, a removed one not at all |
| ShopCart.ItemCount | js/cart.js:71-73 | the `reduce` from 0 that adds every item's quantity (ShopCart.SumsOfAppend and SumsOfUpdate state how it moves when an item is added or changed) |
| ShopCart.Total | js/cart.js:66-68 | the `reduce` from 0 that adds every item's price times its quantity |
| ShopCart.SumsOfAppend | js/cart.js:66-73 | appending an item adds its quantity to the count and its line to the total |
| ShopCart.SumsOfUpdate | js/cart.js:66-73 | changing one quantity changes count and total by the difference |
| ShopCart.WithoutIdKeepsUnique | js/cart.js:42-45 | removal keeps ids unique |
| ShopCart.IconFor | js/cart.js:82-88 | the icon is hidden exactly when the count is not positive, and otherwise shows the count |
| ShopCart.Cart.constructor | js/cart.js:3-13 | the saved array, or empty when nothing is saved, and the stored copy equals it; the icon matches the count |
| ShopCart.Cart.Save | js/cart.js:16-19 | the stored copy equals the cart and the icon shows its count |
| ShopCart.Cart.AddItem | js/cart.js:22-39 | a present id gets its quantity increased in place (length kept); otherwise a new item is appended; the count grows by `quantity`; unique ids are kept |
| ShopCart.Cart.RemoveItem | js/cart.js:42-45 | every item with that id is removed, the others kept in order |
| ShopCart.Cart.UpdateQuantity | js/cart.js:48-58 | an absent id changes nothing; a quantity of 0 or less removes the item; otherwise the quantity is set exactly |
| ShopCart.Cart.GetItems | js/cart.js:61-63 | the current items |
| ShopCart.Cart.GetTotal | js/cart.js:66-68 | the sum of `price * quantity` |
| ShopCart.Cart.GetItemCount | js/cart.js:71-73 | the sum of the quantities |
| ShopCart.Cart.Clear | js/cart.js:76-79 | cart and stored copy empty, count and total 0, icon hidden |
| Catalogue.Select | js/products.js:88-90 | a filter keeps exactly the accepted products, each from the input; when all are accepted the list is unchanged |
| Catalogue.SelectConcat | js/products.js:88-90 | filtering works piece by piece, so the kept products stay in their order |
| Catalogue.SelectOne | js/products.js:88-90 | one product is kept exactly when it is accepted |
| Catalogue.SelectCount | js/products.js:88-90 | an accepted product occurs as often as in the input, any other not at all |
| Catalogue.FilterByCategory | js/products.js:78-95 | `all` gives every product; another slug keeps exactly the products with a category equal, ignoring case, to the slug's formatted name |
| Catalogue.FilterByCategoryConcat | js/products.js:78-95 | the category-button filter works piece by piece, so the products shown keep their order |
| Catalogue.FormattedCategory | js/products.js:85-87 | the slug split on `-`, each word's first character upper-cased, joined with single spaces (Catalogue.FormattedHasNoDash and FormattedSlugRoundTrip state what it can and cannot return) |
| Catalogue.FormattedSlugRoundTrip | js/products.js:44 | formatting the slug of a single-spaced name without `-` gives the name back, up to case |
| Catalogue.ButtonShowsItsCategory | js/products.js:44-91 | a category's button shows exactly that category's products, ignoring case, provided its name has no `-`, single spaces only, and a slug other than `all` |
| Catalogue.FormattedHasNoDash | js/products.js:85-87 | a formatted slug never contains `-` |
| Catalogue.HyphenatedCategoryNeverShown | js/products.js:85-91 | no product whose category contains `-` passes any category button |
| Catalogue.FilterBySlug | js/products.js:44-91 | the filter comparing slugs keeps exactly the products whose category's slug is the button's |
| Catalogue.SlugButtonShowsItsCategory | js/products.js:44-91 | with slugs compared, every product of a category passes that category's button |
| Catalogue.FilterProducts | js/products.js:383-394 | no selection gives all products; a selection keeps exactly the products of that exact category |
| Catalogue.FilterProductsSubsequence | js/products.js:383-394 | a selection keeps an order-preserving subsequence: filtering works piece by piece, one product is kept exactly when its category is `===` the selection, and a kept product appears as often as it is listed |
| Catalogue.SortKey | js/products.js:404-411 | each comparator as a key: featured products before the rest, ascending price, descending price; the default order compares nothing |
| Catalogue.Insert | js/products.js:404-411 | inserting into a sorted list keeps it sorted and adds exactly one element |
| Catalogue.SortBy | js/products.js:404-411 | the result is sorted by the key and is a permutation of the input |
| Catalogue.SortProducts | js/products.js:397-425 | a permutation of the products; `price-low` non-decreasing, `price-high` non-increasing, `featured` puts every featured product before every other, the default keeps the order |
| Catalogue.Storefront.constructor | js/products.js:3-6 | no products and no error at start |
| Catalogue.Storefront.FetchProducts | js/products.js:98-120 | an array reply becomes the products; any other reply empties them; a failed request keeps them, sets the error and returns `[]` |
| Catalogue.Storefront.ShowCategory | js/products.js:78-95 | renders the category-button filter of the current products |
| Catalogue.Storefront.ShowSelected | js/products.js:383-394 | renders the drop-down filter of the current products |
| Catalogue.Storefront.ShowSorted | js/products.js:397-425 | renders a sorted copy; the products themselves are untouched |
| AdminHelpers.SanitizeInput | admin/includes/functions.js:57-59 | no `<` or `>` remains, and every other character occurs exactly as often as in the input |
| AdminHelpers.SanitizeConcat | admin/includes/functions.js:57-59 | sanitising works piece by piece, so kept characters keep their order |
| AdminHelpers.SanitizeKeepsClean | admin/includes/functions.js:57-59 | text without angle brackets is unchanged |
| AdminHelpers.SanitizeIdempotent | admin/includes/functions.js:57-59 | sanitising twice is sanitising once |
| AdminHelpers.GenerateSlug | admin/includes/functions.js:61-66 | the slug uses only `[a-z0-9_-]` and never two adjacent `-` |
| AdminHelpers.SlugOfSlugDiffers | admin/includes/functions.js:63-65 | not idempotent: `"a b"` gives `"a-b"`, which gives `"ab"` |
| AdminHelpers.SlugAgreesWithCategorySlug | admin/includes/functions.js:61-66 | on single-spaced names of word characters, the admin slug equals the slug the category handlers store |
| AdminHelpers.ValidateEmail | admin/includes/functions.js:52-55 | `/^[^\s@]+@[^\s@]+\.[^\s@]+$/`: the address splits at an `@` and a later `.` into three non-empty runs free of whitespace and `@` |
| AdminHelpers.ValidateEmailIff | admin/includes/functions.js:52-55 | the pattern holds iff: no whitespace, exactly one `@` with something before it, and a `.` in the domain that is neither first nor last |
| AdminHelpers.ValidEmailHasShape | admin/includes/functions.js:52-55 | an address the pattern accepts has no whitespace, a single `@` not at the start, and an inner `.` after it |
| AdminHelpers.ShapedEmailIsValid | admin/includes/functions.js:52-55 | an address of that shape is accepted by the pattern |
| AdminHelpers.ValidateImageFile | admin/includes/functions.js:69-84 | accepted iff the type is jpeg, jpg, png or gif and the size is at most 5 MiB; a wrong type is reported before a wrong size |
| AdminHelpers.ImageSizeLimit | admin/includes/functions.js:71-80 | exactly 5 MiB passes, one byte more does not, and an unlisted type is refused |

## Left out

- File-system and network I/O (`readFile`, `writeFile`, `unlink`, `access`, `readdir`, the S3 SDK): the array is loaded and stored whole; the upload folder and the bucket are sets; which deletions fail is a given set `failing`. `path.join` normalisation is not modelled: files are named by their public path.
- The catch-all 500 responses on I/O errors and on a data file whose text `JSON.parse` rejects (every handler reads its file as a well-formed JSON array of records), and the unlink of an upload in `addProduct`'s and `updateProduct`'s catch blocks: those paths follow I/O or parse failures, which are not modelled.
- The HTTP routers other than `contactsRouter`, the multer storage configuration and upload naming, the JSON body parser, and `server.js`.
- Timestamps and random upload names: they are the parameters `now` and the given `FileName`.
- Floating-point money: prices, quantities and totals are integers, and `parseFloat` is `parseInt`'s integer reading. `toFixed`, `Intl` formatting and the `localeCompare` name sorts are not modelled.
- Catalogue.SortProducts: states a sorted permutation but not the stability of `Array.prototype.sort`, and leaves out the two name sorts.
- Catalogue.Listed: the storefront's product objects are reduced to id, name, category (`''` when falsy), `price || 0` and the truthiness of `featured`.
- Text.Lower: case mapping covers ASCII letters only; `toLowerCase` on other scripts is not modelled. For `generateSlug` this matters only for the few non-ASCII characters whose lower case is ASCII (such as the Kelvin sign).
- ShopCart.Cart.GetItems: returns the sequence itself; a `seq` is a value, so the copy semantics of `[...this.cart]` hold trivially and aliasing is not modelled.
- ShopCart.Cart: the missing `cart-count` element case and the `localStorage` text format are not modelled; `stored` is the saved array itself.
- Sweeper: a `null` element of the products array (which would make `product.image` throw) is not modelled; every element is a record. The weekly scheduler (`scripts/scheduleCleanup.js`) and the `process.exit` that ends it are outside the model, but running `RunCleanup` repeatedly on one `OrphanSweeper` shows `usedFiles` carrying over between runs.
- Concurrency: overlapping requests can lose updates (read-modify-write without locking); each handler is modelled as one atomic step.
- DOM rendering, alerts, notifications and the admin dashboard's demo data.
- Json.ParseInt: `parseInt`/`parseFloat` of an array or object goes through `String()` in JavaScript (so `parseFloat([5])` is 5); the model reads only numbers and strings and treats every other value as NaN.

## Findings

| source | as written | input that shows it | evidently intended | confidence | as-written member | corrected member |
|---|---|---|---|---|---|---|
| js/products.js:85-91 | the button's slug is turned back into a name by splitting on `-` and joining with spaces, and compared with the category case-insensitively | a category named `Anti-Aging` (slug `anti-aging`, formatted back to `Anti Aging`): its button shows none of its products | a category's button shows that category's products | not executed | Catalogue.HyphenatedCategoryNeverShown | Catalogue.FilterBySlug (proved by Catalogue.SlugButtonShowsItsCategory) |
| scripts/cleanupOrphanedFiles.js:78-82 | `deletedCount++` after `await deleteFile(file.url)`, which returns `false` on failure instead of throwing | one unused S3 object whose delete fails: the count is 1 though nothing was deleted | the count of objects actually deleted, as in the local sweep | not executed | Sweeper.OrphanSweeper.CleanS3Uploads (with Sweeper.AttemptsCoverSuccesses) | Sweeper.OrphanSweeper.CleanS3UploadsCounted |
