# Storefront client core, modelled in Dafny

This project models the client-side logic of a Next.js storefront. Each part is
written as pure Dafny functions over immutable state, with lemmas about them.

- **Cart store** (`cart_store.dfy`, module `CartStore`). An ordered list of cart
  lines keyed by `productVariantId`, plus the sidebar's open flag.
  - Commands: `addItem`, which merges into an existing line or appends a new one;
    `removeItem`; `updateQuantity`; `clearCart`; and the three sidebar toggles.
  - The two totals, `getTotalItems` and `getTotalPrice`.
  - Persistence: only the line list is persisted.
- **Wishlist store** (`wishlist_store.dfy`, module `WishlistStore`). An ordered
  list of product snapshots with at most one entry per product id. The whole
  state is persisted.
- **Route guard** (`route_guard.dfy`, module `RouteGuard`).
  - The `middleware` decision: allow, redirect home, or redirect to sign-in.
  - The `authorized` callback.
  - Paths are classified by raw `startsWith`. The function itself has no
    segment-boundary check, so given `/authors` it sees an auth page and given
    `/administrator` an admin page. The route matcher in `config.matcher`
    (`/auth/:path*`, `/admin/:path*`, `/account/:path*`) does not send those
    paths to the guard, so in the deployed site this does not arise.
- **Slugs** (`slug.dfy`, module `Slug`). `slugify` is three stages:
  1. lower-case the text;
  2. drop everything that is neither `\w` nor a space;
  3. turn every run of spaces into one `-`.
- **Hero carousel** (`hero_carousel.dfy`, module `HeroCarousel`).
  - State: the slide index and the autoplay flag.
  - Transitions: the autoplay tick, `goToSlide`, `goToPrevious` and `goToNext`.
  - JavaScript's truncating `%` is written out.
- **Product filter panel** (`product_filters.dfy`, module `ProductFilters`).
  - The three checkbox handlers (append on check, filter on uncheck) and the
    in-stock flag.
  - `clearFilters` and `activeFiltersCount`.
  - The badges of the "Active Filters" card.

Shared helpers:
- `Optional`: an `Option` type.
- `Lists`: `Filter`, which is `Array.prototype.filter`, and its lemmas.
- `Catalog`: the product and variant snapshots carried by cart lines and
  wishlist entries. Prices are integer cents.

## Model

| member | source | states |
|---|---|---|
| CartStore.Find | src/store/cart-store.ts:27-29 | `find` returns nothing exactly when no line has the variant; otherwise it returns a line of that variant taken from the cart |
| CartStore.FindFirst | src/store/cart-store.ts:27-29 | The line `find` returns is the first line of the variant: no earlier line has it |
| CartStore.MapQuantity | src/store/cart-store.ts:33-37 | The `items.map` of `addItem` (33-37) and `updateQuantity` (68-72): same length, every line keeps all fields but its quantity, the variant's lines get `f(quantity)` and the others keep theirs, and a cart without the variant is returned as is |
| CartStore.AddItem | src/store/cart-store.ts:25-51 | If the variant is present, every line keeps its fields and position, and the matching line's quantity grows by the incoming quantity. Otherwise exactly one line is appended, carrying the generated id and timestamps, cart id `temp` and the caller's fields, with all earlier lines unchanged. Either way the variant is present afterwards and the sidebar flag is untouched |
| CartStore.AddItemKeepsUnique | src/store/cart-store.ts:25-49 | `addItem` keeps "at most one line per variant" |
| CartStore.AddItemKeepsPositive | src/store/cart-store.ts:25-49 | `addItem` with a positive quantity keeps every quantity positive |
| CartStore.AddZeroBreaksPositivity | src/store/cart-store.ts:41-48 | `addItem` does not validate the quantity: a zero quantity is stored as is |
| CartStore.RemoveItem | src/store/cart-store.ts:53-59 | No line of the variant remains. Every survivor was in the cart, and every line of another variant survives. Removing an absent variant changes nothing. Uniqueness and positivity are kept |
| CartStore.RemoveKeepsOrder | src/store/cart-store.ts:55-57 | Removal distributes over any split of the list, so the survivors keep their relative order |
| CartStore.RemoveItemTotals | src/store/cart-store.ts:53-59 | Removal lowers the item count by exactly the removed variant's quantity and leaves none of it |
| CartStore.UpdateQuantity | src/store/cart-store.ts:61-74 | A quantity ≤ 0 removes the variant. A positive quantity replaces the quantity of the variant's lines in place, with length, order and every other field unchanged. An absent variant changes nothing |
| CartStore.UpdateNonPositiveIsRemove | src/store/cart-store.ts:62-65 | `updateQuantity(v, q)` with q ≤ 0 is exactly `removeItem(v)` |
| CartStore.UpdateQuantityTotals | src/store/cart-store.ts:67-73 | A positive update of a present variant swaps that variant's old quantity for q in the item count |
| CartStore.ClearCart | src/store/cart-store.ts:76-78 | No lines remain; the sidebar flag is kept |
| CartStore.ToggleCart | src/store/cart-store.ts:80-82 | The flag flips and the lines are kept |
| CartStore.OpenCart | src/store/cart-store.ts:84-86 | The flag is set and the lines are kept |
| CartStore.CloseCart | src/store/cart-store.ts:88-90 | The flag is cleared and the lines are kept |
| CartStore.ToggleTwice | src/store/cart-store.ts:80-82 | Toggling twice restores the state |
| CartStore.TotalItems | src/store/cart-store.ts:92-94 | The empty cart counts 0; with positive quantities the count is at least the number of lines |
| CartStore.TotalPrice | src/store/cart-store.ts:96-101 | The empty cart totals 0 |
| CartStore.TotalsAppend | src/store/cart-store.ts:92-101 | Both totals add up over concatenation |
| CartStore.AppendTotals | src/store/cart-store.ts:96-101 | Appending a line adds its quantity to the item count and its price × quantity to the price total |
| CartStore.AddItemTotals | src/store/cart-store.ts:25-51 | `addItem` raises the item count by the incoming quantity. It raises the price total by that quantity times the charged price: the first-seen price snapshot of an existing line, or else the incoming one |
| CartStore.AddItemQuantity | src/store/cart-store.ts:25-49 | After `addItem` exactly one line of the variant exists, its quantity grew by the incoming quantity, and no other variant's quantity changed |
| CartStore.RepeatedAdds | src/store/cart-store.ts:25-49 | For any sequence of adds for one variant, from any cart with unique variants: variants stay unique and the variant's quantity grows by the sum of the added quantities. After at least one add exactly one line of it exists; from a cart without it, that line holds the sum |
| CartStore.TwoAddsTotal | src/store/cart-store.ts:96-101 | 10.00 × 3 plus 5.00 × 2 totals 40.00 over 5 items |
| CartStore.Partialize | src/store/cart-store.ts:105 | Only the line list is persisted |
| CartStore.Rehydrate | src/store/cart-store.ts:19-23 | Rehydration merges the persisted lines into the initial state with the sidebar closed; a missing blob gives the initial state |
| CartStore.PersistRoundTrip | src/store/cart-store.ts:103-106 | Rehydrating the persisted projection gives back the state's lines, with a closed sidebar |
| WishlistStore.AddItem | src/store/wishlist-store.ts:18-27 | An id that is present leaves the state unchanged; otherwise the product is appended. The id is present afterwards, no other id's membership changes, and ids stay unique |
| WishlistStore.AddIdempotent | src/store/wishlist-store.ts:20-21 | Adding the same product twice is adding it once |
| WishlistStore.RemoveItem | src/store/wishlist-store.ts:29-33 | The id is absent afterwards. Survivors were present, and every other entry survives. Removing an absent id changes nothing. Ids stay unique |
| WishlistStore.RemoveKeepsOrder | src/store/wishlist-store.ts:31 | Removal distributes over any split of the list |
| WishlistStore.AddThenRemoveRestores | src/store/wishlist-store.ts:18-33 | Adding an absent product and then removing its id restores the original list |
| WishlistStore.IsInWishlist | src/store/wishlist-store.ts:35-37 | The front-to-back `some` scan is true exactly when some entry has the id |
| WishlistStore.MembershipAfterCommands | src/store/wishlist-store.ts:35-37 | `isInWishlist` is true right after an add of that id and false right after its removal |
| WishlistStore.ClearWishlist | src/store/wishlist-store.ts:39-41 | No id is in the wishlist afterwards |
| WishlistStore.Persist | src/store/wishlist-store.ts:43-45 | The whole list is persisted |
| WishlistStore.Rehydrate | src/store/wishlist-store.ts:43-45 | The persisted list is restored; a missing blob gives the empty list |
| WishlistStore.PersistRoundTrip | src/store/wishlist-store.ts:43-45 | Rehydrating the persisted projection gives back the state's list |
| RouteGuard.Classify | src/middleware.ts:8-10 | A path is an auth, admin or account page exactly when it starts with `/auth`, `/admin` or `/account` |
| RouteGuard.PrefixesExclusive | src/middleware.ts:8-10 | No path starts with two of the three prefixes |
| RouteGuard.RawPrefixMatch | src/middleware.ts:8-10 | The function itself has no segment-boundary check: it classifies `/authors` as an auth page and `/administrator` as an admin page. The route matcher keeps such paths away from it |
| RouteGuard.Middleware | src/middleware.ts:5-35 | An anonymous request is never sent home and a signed-in one is never sent to sign-in. Sign-in redirects happen only on admin and account pages, and home redirects only on auth and admin pages |
| RouteGuard.MiddlewareFollowsTable | src/middleware.ts:12-34 | The nested conditionals implement the decision table over (path class, signed in, role) |
| RouteGuard.Scenarios | src/middleware.ts:19-32 | Admin page: anonymous → sign-in, customer → home, manager → allow, token without role → home. Account page: anonymous → sign-in. `/products`: allow |
| RouteGuard.Authorized | src/middleware.ts:38-56 | Auth pages are always authorized and staff always are. Without a token, exactly the non-admin, non-account pages are authorized |
| RouteGuard.AgreementOffAuthPages | src/middleware.ts:38-56 | Off the auth pages, the callback says yes exactly when the decision is Allow |
| RouteGuard.AuthPagesDisagree | src/middleware.ts:43-45 | On auth pages the callback always says yes, while the decision allows only anonymous users |
| RouteGuard.RefusalImpliesRedirect | src/middleware.ts:38-56 | A refusal by the callback always comes with a redirect from the decision |
| RouteGuard.RedirectWithoutRefusal | src/middleware.ts:12-15 | The converse fails: a signed-in user on `/auth/signin` is authorized yet redirected home |
| Slug.ToLowerChar | src/lib/utils.ts:29 | The result is never an ASCII upper-case letter; upper-case letters map to their lower-case partners and everything else is kept |
| Lists.Filter | src/store/cart-store.ts:55-57 | `Array.prototype.filter`: the result is no longer than the input and every survivor passes the test |
| Lists.FilterMembers | src/store/cart-store.ts:55-57 | Every survivor comes from the input, and every input element that passes the test survives |
| Lists.FilterCount | src/store/cart-store.ts:55-57 | A passing value keeps all its occurrences; a failing one keeps none |
| Lists.FilterAppend | src/store/cart-store.ts:55-57 | Filtering works piecewise over concatenation, so the survivors keep their order |
| Lists.FilterAll | src/store/cart-store.ts:55-57 | When every element passes, filtering returns the input itself |
| Lists.FilterNone | src/store/cart-store.ts:55-57 | When no element passes, filtering returns the empty list |
| Lists.FilterKeepsUnique | src/store/cart-store.ts:55-57 | Filtering a list whose keys are distinct leaves keys that are still distinct |
| Slug.Lower | src/lib/utils.ts:29 | Lower-casing keeps the length and maps each character |
| Slug.StripNonWord | src/lib/utils.ts:30 | Only `\w` characters and spaces survive |
| Slug.StripKeepsKept | src/lib/utils.ts:30 | Every `\w` character and space keeps all its occurrences and every other character loses all of them; stripping works piecewise over concatenation, so the survivors keep their order |
| Slug.CollapseSpaces | src/lib/utils.ts:31 | No space remains, the text never grows, and a leading run of spaces becomes a leading `-` |
| Slug.CollapseKeepsNonSpaces | src/lib/utils.ts:31 | On hyphen-free text, collapsing keeps every non-space character in order and adds only hyphens |
| Slug.CollapseCountsRuns | src/lib/utils.ts:31 | On hyphen-free text, the number of hyphens equals the number of maximal runs of spaces |
| Slug.CollapseWord | src/lib/utils.ts:31 | A space-free prefix passes through collapsing unchanged, in place |
| Slug.CollapseSpaceRun | src/lib/utils.ts:31 | A maximal run of spaces at the front becomes one `-` in its place, and the rest is collapsed after it |
| Slug.WordsCollapse | src/lib/utils.ts:31 | Two words side by side pass through collapsing unchanged |
| Slug.CollapseNoDoubleHyphen | src/lib/utils.ts:31 | On hyphen-free text, collapsing never puts two hyphens side by side |
| Slug.CollapseTrailing | src/lib/utils.ts:31 | A trailing space becomes a trailing hyphen |
| Slug.CollapseAlphabet | src/lib/utils.ts:31 | Text over `[a-z0-9_ -]` collapses to text over `[a-z0-9_-]` |
| Slug.WordCharsOfLower | src/lib/utils.ts:29-30 | Stripping and then dropping spaces keeps exactly the lower-cased word characters |
| Slug.Slugify | src/lib/utils.ts:27-32 | The slug is no longer than the text and uses only `[a-z0-9_-]` |
| Slug.SlugShape | src/lib/utils.ts:27-32 | A slug has no spaces and no two adjacent hyphens |
| Slug.SlugKeepsWordChars | src/lib/utils.ts:27-32 | Without its hyphens, the slug is exactly the lower-cased letters, digits and `_` of the text, in order |
| Slug.SlugHyphens | src/lib/utils.ts:27-32 | The number of hyphens in the slug equals the number of maximal runs of spaces left after stripping |
| Slug.NoTrimming | src/lib/utils.ts:27-32 | A leading or trailing space yields a leading or trailing hyphen |
| Slug.TwoWords | src/lib/utils.ts:27-32 | Two words separated by a run of spaces, followed by punctuation, give the lower-cased words joined by one `-` |
| Slug.SpacesAroundLetter | src/lib/utils.ts:27-32 | `" a "` becomes `"-a-"` |
| Slug.HyphenDropped | src/lib/utils.ts:30-31 | A hyphen between two words is removed before spaces become hyphens |
| Slug.NotIdempotent | src/lib/utils.ts:27-32 | `slugify` is not idempotent: `hello world` → `hello-world` → `helloworld` |
| Slug.HelloWorldCase | src/__tests__/utils.test.ts:19 | `Hello World` → `hello-world` |
| Slug.ProductNameCase | src/__tests__/utils.test.ts:20 | `Product Name!` → `product-name` |
| Slug.MultipleSpacesCase | src/__tests__/utils.test.ts:21 | `Multiple   Spaces` → `multiple-spaces` |
| HeroCarousel.SlideRem | src/components/sections/hero-section.tsx:54-71 | JavaScript's `% heroSlides.length`: the result differs from the dividend by a multiple of 3; a non-negative dividend gives a result in [0, 3), a negative one a result in (-3, 0], and an in-range dividend is kept |
| HeroCarousel.Tick | src/components/sections/hero-section.tsx:50-58 | With autoplay on, an in-range index advances with wrap-around and autoplay stays on; with autoplay off (no timer) nothing changes |
| HeroCarousel.GoToSlide | src/components/sections/hero-section.tsx:60-63 | Any index is shown as given, and autoplay stops. The state is in range exactly when the index is |
| HeroCarousel.GoToPrevious | src/components/sections/hero-section.tsx:65-68 | An in-range index moves back by one, wrapping from 0 to the last slide; autoplay stops |
| HeroCarousel.GoToNext | src/components/sections/hero-section.tsx:70-73 | An in-range index moves forward by one, wrapping from the last slide to 0; autoplay stops |
| HeroCarousel.RunStaysInRange | src/components/sections/hero-section.tsx:46-73 | Ticks, arrows and clicks on the rendered dots keep the index in [0, 3) |
| HeroCarousel.NextPreviousInverse | src/components/sections/hero-section.tsx:65-73 | Next and previous undo each other on every in-range index |
| HeroCarousel.NextTimesRotates | src/components/sections/hero-section.tsx:70-73 | n presses of next from slide i show slide (i + n) mod 3 |
| HeroCarousel.WrapAround | src/components/sections/hero-section.tsx:65-73 | Previous from 0 shows 2, next from 2 shows 0, and three nexts return to the start |
| HeroCarousel.AutoplayOnlyWithoutInteraction | src/components/sections/hero-section.tsx:48-73 | Autoplay is on after a run exactly when it was on before and no manual action happened, because nothing turns it back on |
| HeroCarousel.TicksIgnoredWhenStopped | src/components/sections/hero-section.tsx:50-58 | Once autoplay is off, a run equals the same run with its ticks removed |
| HeroCarousel.TickIsNextWithAutoplay | src/components/sections/hero-section.tsx:51-55 | The tick moves the index exactly like next but leaves autoplay on |
| HeroCarousel.UncheckedGoToSlide | src/components/sections/hero-section.tsx:60-63 | `goToSlide(3)` leaves the index out of range; next brings it back to 1 |
| ProductFilters.Toggle | src/components/products/product-filters.tsx:42-48 | Checking appends the id at the end, keeping the rest. Unchecking leaves no occurrence of the id, and every other id keeps its number of occurrences |
| ProductFilters.CategoryChange | src/components/products/product-filters.tsx:42-48 | Only the category list changes: append on check, remove every occurrence on uncheck |
| ProductFilters.BrandChange | src/components/products/product-filters.tsx:50-56 | Only the brand list changes: append on check, remove every occurrence on uncheck |
| ProductFilters.RatingChange | src/components/products/product-filters.tsx:58-64 | Only the rating list changes: append on check, remove every occurrence on uncheck |
| ProductFilters.SetInStockOnly | src/components/products/product-filters.tsx:245-249 | Only the in-stock flag changes |
| ProductFilters.SetPriceRange | src/components/products/product-filters.tsx:129-136 | Only the price range changes |
| ProductFilters.UncheckKeepsOrder | src/components/products/product-filters.tsx:46 | Unchecking distributes over any split of the list, so the remaining ids keep their order |
| ProductFilters.CheckThenUncheck | src/components/products/product-filters.tsx:42-48 | Checking an unselected id and then unchecking it restores the list |
| ProductFilters.ToggleKeepsNoDuplicates | src/components/products/product-filters.tsx:156-158 | Events as the checkboxes produce them (check only an unselected id) keep a list free of duplicates |
| ProductFilters.DoubleCheckDuplicates | src/components/products/product-filters.tsx:44 | Checking does not deduplicate: two check events for one id leave it in the list twice |
| ProductFilters.ActiveFiltersCount | src/components/products/product-filters.tsx:74 | The count is 0 exactly when nothing is selected and the in-stock flag is off |
| ProductFilters.HandlersAndCount | src/components/products/product-filters.tsx:74 | A check raises the count by one, an uncheck lowers it by the id's number of occurrences, the in-stock checkbox swaps the old flag's term for the new one, and the price range never counts |
| ProductFilters.ClearFilters | src/components/products/product-filters.tsx:66-72 | After clearing: the count is 0, the price range is [0, 1000], and no category, brand or rating is selected |
| ProductFilters.ClearRestoresInitial | src/components/products/product-filters.tsx:36-40 | Clearing returns to the initial state from anywhere, so clearing is idempotent |
| ProductFilters.CategoryBadges | src/components/products/product-filters.tsx:91-98 | One badge per selected category, in order, labelled from the category table |
| ProductFilters.BrandBadges | src/components/products/product-filters.tsx:99-106 | One badge per selected brand, in order, labelled from the brand table |
| ProductFilters.RatingBadges | src/components/products/product-filters.tsx:107-111 | One badge per selected rating, in order |
| ProductFilters.ShowsActiveCard | src/components/products/product-filters.tsx:79 | The card is shown exactly when some category, brand or rating is checked or the in-stock flag is set |
| ProductFilters.Badges | src/components/products/product-filters.tsx:91-116 | The card lists the category badges, then the brand badges, then the rating badges, each in selection order and labelled from its table; there are `activeFiltersCount` badges in all |
| ProductFilters.BadgesMatchCount | src/components/products/product-filters.tsx:79-116 | The card renders exactly `activeFiltersCount` badges, is shown exactly when it has one, and holds the in-stock badge exactly when the flag is set |

## Left out

- CartStore.PersistRoundTrip, WishlistStore.PersistRoundTrip: the model's
  storage encoding is the identity. zustand's `persist` stores the state as JSON.
  After a reload the `Date` fields of cart lines and snapshots come back as ISO
  strings, and absent optional fields are dropped. The round trip is therefore
  exact only on the modelled fields, not on the JavaScript objects.

- Store plumbing is not modelled: zustand's `create`, subscriber notification,
  the `localStorage` writes and the asynchronous rehydration. Persistence is the
  pure projection (`Partialize`/`Persist`) plus `Rehydrate` over an optional blob.
- Clock reads (`Date.now()`, `new Date()`) in new cart lines are parameters: the
  `Stamp` argument of `CartStore.AddItem`. The model never claims these ids are
  unique.
- Prices are exact integer cents. The source multiplies JavaScript numbers,
  which round. `TotalPrice` does not model floating-point rounding.
- CartStore.TotalPrice: states only that the empty cart totals 0. The sum of
  price × quantity is stated through `TotalsAppend` and `AppendTotals`, which
  together fix the value on every list.
- CartStore.TotalItems: states only the empty case and a lower bound. The exact
  sum is stated through `TotalsAppend`, `AddItemTotals`, `RemoveItemTotals` and
  `UpdateQuantityTotals`.
- Cart lines are keyed by `productVariantId` alone, as the code does. Two lines
  with the same variant and different product ids would be merged.
- The route guard leaves out next-auth: token decoding, `NextResponse`, the
  `config.matcher` list, and the redirect the framework performs when
  `authorized` returns false. A decision is a datatype, not a response.
- Slug.Lower: models `toLowerCase` on ASCII only. A few non-ASCII characters
  lower-case to ASCII in JavaScript (the Kelvin sign becomes `k`, and `İ` becomes
  `i` plus a combining dot), so on such input the source keeps a character that
  the model drops.
- The other helpers of `src/lib/utils.ts` (`formatPrice`, `formatDate`,
  `calculateDiscount`, `generateOrderNumber`, `debounce`, `throttle`, `cn`) are
  left out. They are formatting, floating-point, clock and timer code.
- Rendering is left out: JSX, CSS transitions, the 5-second timer period, and the
  interval's creation and clean-up. The timer appears only as `TimerTick` events,
  which do nothing while autoplay is off.
- ProductFilters.SetPriceRange: stores any range as given. The slider's min, max
  and step (0, 1000, 10) belong to the slider widget, which is not part of this
  model.
- The product, category and brand pages, the header and the other components
  that call these stores are not part of this model.
