# Restaurant site scripts: cart store, menu catalog and hero slider

A Dafny model of the browser-side logic of a restaurant website. The logic has
three parts:

- **Menu catalog** (`js/menu-dynamic.js`), modelled in `catalog.dfy`. Items
  fetched from the menu endpoint are split into eight fixed category buckets:
  starters, main, specials, desserts, drinks, wine, kids and dietary. Then each
  section's grid container is rendered. A missing container is skipped. An
  empty bucket gets the "No items available" placeholder. Otherwise the
  container's contents are replaced by one card per item, in bucket order.
  The request URL is `…/api/menu?category=c` when a category is given and
  `…/api/menu` otherwise.
  - Unknown categories are dropped.
  - One edge of the source is modelled as written. The bucket dictionary is a
    plain JavaScript object. For a category that names an inherited property,
    such as `constructor` or `toString`, `categories[item.category]` is
    truthy but has no `push`. The pass then throws before any section is
    rendered, and the loader shows its error notification.
    `PartitionByCategory`, `DisplayMenuItems` and `LoadMenuItems` all state
    this.
  - The loader's input is the response body: a failed request, the JSON
    literal `null`, or an item array. The menu endpoint (backend/main.go)
    writes `null` when its query returns no row. The loader then throws and
    shows its error instead of the placeholders (see Findings).
- **Card lookup** (`js/menu-dynamic.js:88` and `:112`), modelled in
  `lookup.dfy`. Each card embeds a JSON snapshot of its item. "Add to cart"
  and "view details" find a card with an attribute-substring selector (see
  Findings).
- **Cart store** (`js/menu-dynamic.js`), modelled in `cart.dfy`. The store
  is a class. Its fields are:
  - the cart, a sequence of lines. A cart restored from storage is not
    validated. Once the lines are unique by id with quantities ≥ 1, every add
    keeps them so (`AddKeepsStoreConsistent`);
  - the storage slot `cart`;
  - the cart-count badge;
  - the notifications shown.

  `AddToCart` raises the quantity of an existing line or appends a new line
  with quantity 1. It then stores the whole cart, refreshes the badge and
  shows a notification. The badge shows the sum of quantities and is hidden
  when that sum is 0. A second class, `DetailView`, models the detail modal:
  its fields, its open state and the order button, which adds to the cart and
  then hides the modal.
- **Hero slider** (`js/script.js` and `frontend/js/script.js`), modelled in
  `hero_slider.dfy` and `guarded_hero_slider.dfy`.
  - The slides are an array of `active` flags. A step removes the flag from
    the current slide, advances the index modulo the number of slides, and
    sets the flag on the new slide.
  - The timer starts only when there is at least one slide.
  - In the frontend copy, a step on an empty list returns without doing
    anything.

The specifications are functions: `Bucket`, `RenderCatalog`, `AddLine`,
`Total`, `Rotate` and `Advance`. The methods and classes are proved against
them. The lemmas state what the site promises about them.

## Model

| member | source | states |
|---|---|---|
| Catalog.Bucket | js/menu-dynamic.js:52-56 | the items of one category in input order, never more than the input; what it holds is stated by the three lemmas below |
| Catalog.BucketMembership | js/menu-dynamic.js:52-56 | an item is in bucket c exactly when it is in the input and its category is c |
| Catalog.BucketAppend | js/menu-dynamic.js:52-56 | the bucket of a concatenation is the concatenation of the buckets, so input order is kept and no item is dropped or repeated |
| Catalog.BucketSingleton | js/menu-dynamic.js:53-55 | one item lands in its own category's bucket and in no other |
| Catalog.BucketSizesSum | js/menu-dynamic.js:41-56 | for distinct bucket names, the bucket sizes add up to the number of items whose category is one of them |
| Catalog.KnownItemsAllBucketed | js/menu-dynamic.js:41-56 | the eight bucket sizes add up to the number of items with a known category |
| Catalog.BucketOfUniform | js/menu-dynamic.js:52-56 | when every item has category c, the bucket of c is the whole input |
| Catalog.SectionsAreNotPrototypeKeys | js/menu-dynamic.js:41-53 | no section name is an inherited object property, so a known category never throws |
| Catalog.PartitionByCategory | js/menu-dynamic.js:41-56 | the pass throws exactly when some category is an inherited object property; otherwise the buckets are the eight section names, each holding its category's items in input order |
| Catalog.SectionContent | js/menu-dynamic.js:13-37 | an empty bucket gives the placeholder and only then; a non-empty bucket gives exactly one card per item, in bucket order |
| Catalog.GridId | js/menu-dynamic.js:9 | a section's container id is the section name followed by `-grid` |
| Catalog.UpdateSection | js/menu-dynamic.js:8-38 | a missing container leaves the page unchanged; otherwise only that container changes and it holds the placeholder or the cards |
| Catalog.UpdateSectionReplaces | js/menu-dynamic.js:14-37 | rendering a section twice equals rendering it once with the second items: contents are replaced, not appended |
| Catalog.SectionOf | js/menu-dynamic.js:9 | a container id belongs to section c exactly when it is c's grid id and c is known |
| Catalog.RenderCatalog | js/menu-dynamic.js:58-66 | every present known section holds its bucket's content; every other container is as it was; no container appears or disappears |
| Catalog.UnknownCategoryRendersNowhere | js/menu-dynamic.js:52-56 | an item of an unknown category appears in no rendered section |
| Catalog.FilteredResponseBlanksOtherSections | js/menu-dynamic.js:52-66 | when items that all have one category are rendered, every other present section shows the placeholder |
| Catalog.DisplayMenuItems | js/menu-dynamic.js:40-67 | throws exactly when some category is an inherited object property; otherwise the page becomes RenderCatalog of the items |
| Catalog.MenuUrl | js/menu-dynamic.js:73 | the URL starts with the menu endpoint, and is the bare endpoint exactly when no category is given |
| Catalog.MenuUrlRoundTrip | js/menu-dynamic.js:73 | the requested category can be read back from the URL string |
| Catalog.MenuUrlInjective | js/menu-dynamic.js:73 | distinct categories give distinct request URLs |
| Catalog.LoadMenuItems | js/menu-dynamic.js:71-83 | requests MenuUrl(category); the error banner is shown exactly when LoadOutcome throws, the page is unchanged then, and otherwise the page is the rendered catalog |
| Catalog.LoadOutcome | js/menu-dynamic.js:71-83 | a load throws exactly when the request failed, the body is `null` or some category is an inherited object property; otherwise the page is RenderCatalog of the items |
| Catalog.ServedBody | backend/main.go:233-245 | the endpoint's body is `null` exactly when its query returns no row, and otherwise the rows in order |
| Catalog.FilteredLoadAsServed | js/menu-dynamic.js:230-232 | as served, a category button for a category with items blanks every other present section, and one for a category with no items shows the error and renders nothing |
| Catalog.FilteredLoadIntended | js/menu-dynamic.js:230-232 | with the intended body a category load always renders: the category's own section shows exactly its items, or the placeholder when it has none, and every other present section shows the placeholder |
| Lookup.SelectorIndex | js/menu-dynamic.js:88 | the position of the first card whose id begins with the requested id's digits; None when no card matches |
| Lookup.SelectorFind | js/menu-dynamic.js:88 | the card the selector returns matches it, is rendered, and no card before it in document order matches; None exactly when no card matches |
| Lookup.SnapshotIndex | js/menu-dynamic.js:88 | the position of the first card whose id equals the requested id; None when there is none |
| Lookup.FindSnapshot | js/menu-dynamic.js:88 | the intended lookup: the card found has the requested id and no card before it in document order has it; None exactly when no rendered card has it |
| Lookup.SelectorMatches | js/menu-dynamic.js:88 | the selector for an id matches a card when the id's decimal text is a prefix of the card's; a card always matches the selector built from its own id |
| Lookup.SelectorAgreesWithoutLongerIds | js/menu-dynamic.js:88 | when no rendered id merely extends the requested id's digits, the selector finds the intended card |
| Lookup.SelectorPicksLongerId | js/menu-dynamic.js:88 | with item 12's card before item 1's, the selector for 1 returns item 12 while the intended lookup returns item 1 |
| Cart.ValidCart | js/menu-dynamic.js:92-103 | lines unique by id with quantities at least 1; in such a cart every line is the one `cart.find` returns for its id |
| Cart.FindLine | js/menu-dynamic.js:92 | the position of the first line with the id; None exactly when the id is not in the cart |
| Cart.AddLine | js/menu-dynamic.js:92-104 | an add keeps the cart's length or grows it by one line |
| Cart.NewLine | js/menu-dynamic.js:97-103 | the line a first add creates holds the item's id and is a valid cart on its own |
| Cart.Total | js/menu-dynamic.js:163 | the badge total, the quantities summed left to right as `reduce` does; its properties are TotalAppend, TotalIncrement, AddGrowsTotal and TotalOfValid |
| Cart.AddToExistingLine | js/menu-dynamic.js:92-95 | in any cart, validated or not, adding an id already present raises the quantity of the first line with that id by exactly 1 and keeps the length and every other line |
| Cart.AddNewLine | js/menu-dynamic.js:96-103 | adding an id not in the cart appends one line with the item's id, title, price and image path and quantity 1 |
| Cart.AddKeepsValid | js/menu-dynamic.js:92-103 | an add keeps lines unique by id with quantities at least 1 |
| Cart.AddIds | js/menu-dynamic.js:92-103 | an add changes the set of ids by exactly the item's id |
| Cart.TotalAppend | js/menu-dynamic.js:163 | appending a line adds its quantity to the total |
| Cart.TotalIncrement | js/menu-dynamic.js:95 | raising one quantity by 1 raises the total by 1 |
| Cart.AddGrowsTotal | js/menu-dynamic.js:92-104 | every add raises the badge total by exactly 1 |
| Cart.TotalOfValid | js/menu-dynamic.js:163 | in a valid cart the total is at least the number of lines, and positive exactly when the cart is not empty |
| Cart.DistinctIdsCount | js/menu-dynamic.js:92-103 | a valid cart has as many lines as distinct ids |
| Cart.AddAllValidTotal | js/menu-dynamic.js:87-109 | any sequence of adds keeps a valid cart valid and raises the total by the number of adds |
| Cart.AddAllIds | js/menu-dynamic.js:87-109 | after any sequence of adds the ids are the old ids plus the added ones |
| Cart.LinesMatchDistinctIds | js/menu-dynamic.js:87-109 | after any sequence of adds to a valid cart there is one line per distinct id |
| Cart.AddTwice | js/menu-dynamic.js:92-95 | adding the same item twice to an empty cart gives one line of quantity 2 |
| Cart.RefreshBadge | js/menu-dynamic.js:162-185 | the badge exists unless it was missing and there is no navigation list; it shows the total and is displayed exactly when the total is positive |
| Cart.BadgeDisplayedIffNonEmpty | js/menu-dynamic.js:183 | for a valid cart the badge is displayed exactly when the cart is not empty |
| Cart.AddedMessage | js/menu-dynamic.js:108 | the notification after an add begins with the item's title |
| Cart.CartStore.Load | js/menu-dynamic.js:4 | at start-up the cart is what the slot holds, or empty when the slot is absent |
| Cart.CartStore.UpdateCartCount | js/menu-dynamic.js:162-185 | the badge becomes RefreshBadge of the current total |
| Cart.CartStore.AddToCart | js/menu-dynamic.js:87-109 | an id with no rendered card changes nothing; otherwise the cart becomes AddLine of the found snapshot, the slot holds exactly the new cart, the badge is refreshed and one notification naming the item is added |
| Cart.AddKeepsStoreConsistent | js/menu-dynamic.js:4-106 | from any valid cart whose slot reads back as the cart (the start-up state with an absent slot included), an add keeps the cart valid and the slot reading back as it, so adds chain; the total grows by 1 exactly when a card was found |
| Cart.DetailsOf | js/menu-dynamic.js:119-123 | the detail view shows the item's title, description and price; the image address is the site origin followed by the item's image path, which can be read back from it; the ingredients line is never blank and shows the item's ingredients whenever it has any |
| Cart.DetailView.ViewDetails | js/menu-dynamic.js:111-148 | an id with no rendered card changes nothing; otherwise the shown fields are replaced by the item's, the order button is bound to its id and the modal opens if present |
| Cart.DetailView.Hide | js/menu-dynamic.js:151-160 | the modal ends hidden, whatever its state before, so hiding twice is harmless |
| Cart.DetailView.Order | js/menu-dynamic.js:128-140 | before any view nothing changes; otherwise the modal ends hidden if present, and the store changes exactly as AddToCart of the bound id: nothing for a missing card, else AddLine, the slot, the refreshed badge and one notification |
| HeroSlider.Next | js/script.js:9 | the next index stays in range and wraps from the last slide to the first |
| HeroSlider.Rotate | js/script.js:8-10 | a step keeps the number of slides, sets the new current slide active, clears the old one unless it is the new one, and touches no other slide |
| HeroSlider.RotateKeepsOneActive | js/script.js:8-10 | if exactly the current slide was active, exactly the new current slide is active after a step, also for one slide |
| HeroSlider.Advance | js/script.js:9 | the index after any number of steps stays in range |
| HeroSlider.AdvanceIsModular | js/script.js:9 | k steps move the index to (start + k) mod n |
| HeroSlider.FullCycle | js/script.js:9 | n steps return the index to where it started |
| HeroSlider.Slider.constructor | js/script.js:3-4 | the slider starts at slide 0 over the page's slides |
| HeroSlider.Slider.NextSlide | js/script.js:7-11 | on a non-empty slide list the index becomes Next of the old one and the flags become Rotate of the old flags |
| HeroSlider.Slider.Run | js/script.js:13-15 | the timer starts exactly when a slide exists; after k ticks the index is (start + k) mod n and a single active slide stays single |
| GuardedHeroSlider.GuardedSlider.constructor | frontend/js/script.js:3-4 | the slider starts at slide 0 over the page's slides |
| GuardedHeroSlider.GuardedSlider.NextSlide | frontend/js/script.js:7-15 | with no slides nothing changes; otherwise the index becomes Next of the old one and the flags become Rotate of the old flags |
| GuardedHeroSlider.GuardedSlider.Run | frontend/js/script.js:17-22 | the timer starts exactly when a slide exists; after k ticks the index is (start + k) mod n and a single active slide stays single |

## Findings

| source | as written | input that shows it | evidently intended | confidence | as-written member | corrected member |
|---|---|---|---|---|---|---|
| backend/main.go:233-245 | the item slice starts nil and is only appended to, so a query with no row is encoded as `null`; the loader's `displayMenuItems(null)` throws at `items.forEach` (js/menu-dynamic.js:52) and the catch shows "Failed to load menu items" | a category button for a category with no items, or an empty menu | an empty array, so every section shows its placeholder | high; not executed | Catalog.ServedBody (exhibited by Catalog.FilteredLoadAsServed) | Catalog.IntendedBody (proved in Catalog.FilteredLoadIntended) |
| js/menu-dynamic.js:88 | `[data-item*='"id":N']` is a substring test on the card's JSON, so it matches every card whose id begins with N's digits, and the first in document order wins | cards for items 12 and 1 in that order (the endpoint lists items by descending id, backend/main.go:222-224); "Add to Cart" on item 1 adds item 12 | the card whose id is N | high; not executed | Lookup.SelectorFind (exhibited by Lookup.SelectorPicksLongerId) | Lookup.FindSnapshot |

The same selector is used by `viewDetails` (js/menu-dynamic.js:112).
`Cart.CartStore.AddToCart` and `Cart.DetailView.ViewDetails` use the corrected
lookup. `Lookup.SelectorAgreesWithoutLongerIds` states when the two lookups
agree. The loader is modelled as written and accepts any body, the `null`
body included. The correction for the empty result belongs to the endpoint:
starting from an empty, non-nil slice.

## Left out

- backend/main.go is not part of this model. It holds the database queries,
  the HTTP handlers, tokens and payments. Two of its facts are used. The menu
  endpoint returns items by descending id (backend/main.go:222-224). It writes
  `null` when no row matches (backend/main.go:233-245), which
  `Catalog.ServedBody` models.
- Network I/O in `loadMenuItems`: `fetch`, `response.ok` and `response.json()`
  are one parameter, the decoded body. It is a failure, `null` or an item
  array. Other JSON values the endpoint never writes are not modelled.
  `console.error` is left out.
- Catalog.FilteredResponseBlanksOtherSections: states the render step only. A
  load never renders an empty item list as served, because the endpoint
  writes `null` for it. Catalog.FilteredLoadAsServed states the whole load.
- Catalog.MenuUrlRoundTrip: the round trip is on the URL string. The category
  is inserted unencoded, and the server decodes the query
  (backend/main.go:216). So only a category without URL-special characters
  reaches the server unchanged. All eight section names are such categories.
- JSON and `localStorage` internals: the storage slot holds a cart value, not
  a string. `JSON.parse` of malformed stored data throws at start-up; that is
  not modelled. The stored cart is not validated by the source, so the model
  does not assume the cart invariant at start-up. The lemmas state that adds
  keep the invariant once it holds.
- Timers and animation: the `setTimeout` delays of notifications, the error
  banner and the modal's show/hide transitions are modelled as immediate
  effects. Notifications are recorded as messages and never removed. The
  slider's `setInterval` is modelled as an explicit number of ticks.
- Markup: the card HTML, image fallback URL, price formatting
  (`toLocaleString`, `toFixed`) and body scroll locking are left out. A card
  is its item snapshot, and the price is copied as an opaque value.
- DOM wiring: `createSectionGrids`, `addCategoryFilters`, the
  `DOMContentLoaded` handlers, the navbar scroll effect, the mobile menu
  toggle and smooth scrolling are left out. The modal code of js/script.js is
  also left out: its static card click handler and message deep-link button.
- The document order of cards across sections depends on the page's markup,
  which is not part of this model. Lookups take the rendered snapshots in
  document order as a parameter.
- Cart.CartStore.AddToCart: finds the card by exact id (`Lookup.FindSnapshot`).
  It does not model the selector's prefix match. That match is modelled
  separately by `Lookup.SelectorFind` (see Findings).
- Cart.DetailView.ViewDetails: finds the card by exact id, like AddToCart. It
  does not model the selector's prefix match (js/menu-dynamic.js:112).
- Cart.DetailView.ViewDetails: assumes the five modal field elements and the
  order button exist. The source checks each one separately.
- Cart.DetailView.Order: the fallback branch that runs when `hideModal` is
  not a function is not modelled. `hideModal` is declared in the same file,
  so that branch never runs.
- Catalog.DisplayMenuItems: the source makes eight separate `updateSection`
  calls. The model runs the same calls, in the same order, as a loop over the
  section list.
- Item ids are modelled as integers, as the endpoint serves them. Quantities
  are unbounded integers: JavaScript's floating-point limit is not modelled.
- The slider's debug logging in frontend/js/script.js is left out.
