/** The menu catalog of the menu page (js/menu-dynamic.js): the items the menu
    endpoint serves, their partition into the eight fixed category sections,
    the rendering of one section's grid container, and the request URL. */
module Catalog {
  import opened Optional

  /** A menu item as the menu endpoint serves it. Every field is present; the
      price is only ever copied, never computed with. */
  datatype MenuItem = MenuItem(
    id: int,
    title: string,
    description: string,
    price: real,
    category: string,
    imageUrl: string,
    ingredients: string)

  /** Base address of the backend API. */
  const ApiUrl: string := "http://localhost:8080/api"

  /** The eight sections of the menu page, in the order they are rendered. */
  const Categories: seq<string> :=
    ["starters", "main", "specials", "desserts", "drinks", "wine", "kids", "dietary"]

  /** The properties every plain JavaScript object inherits from
      Object.prototype. Looking one of them up in the bucket dictionary yields
      a truthy value that has no `push`, so the partition throws a TypeError. */
  const PrototypeKeys: seq<string> :=
    ["constructor", "__defineGetter__", "__defineSetter__", "hasOwnProperty",
     "__lookupGetter__", "__lookupSetter__", "isPrototypeOf", "propertyIsEnumerable",
     "toString", "valueOf", "__proto__", "toLocaleString"]

  predicate NoDuplicates(s: seq<string>)
  {
    forall i, j :: 0 <= i < j < |s| ==> s[i] != s[j]
  }

  /** No section name is an inherited object property. */
  lemma SectionsAreNotPrototypeKeys(c: string)
    requires c in Categories
    ensures c !in PrototypeKeys
  {
    assert |c| <= 8;
    assert c[0] != 't' && c[0] != 'v';
  }

  /** True when some item's category makes the partition throw. */
  predicate HitsPrototypeKey(items: seq<MenuItem>)
  {
    exists k :: 0 <= k < |items| && items[k].category in PrototypeKeys
  }

  // ---------------------------------------------------------------------------
  // Partition into category buckets

  /** The items of `items` whose category is `c`, in input order. */
  function Bucket(items: seq<MenuItem>, c: string): (b: seq<MenuItem>)
    ensures |b| <= |items|
  {
    if items == [] then []
    else
      var last := items[|items| - 1];
      Bucket(items[..|items| - 1], c) + (if last.category == c then [last] else [])
  }

  /** The items whose category is one of `cats`, in input order. */
  function Within(items: seq<MenuItem>, cats: seq<string>): (w: seq<MenuItem>)
    ensures |w| <= |items|
  {
    if items == [] then []
    else
      var last := items[|items| - 1];
      Within(items[..|items| - 1], cats) + (if last.category in cats then [last] else [])
  }

  /** Sum of the bucket sizes for the categories `cats`. */
  function SizeSum(items: seq<MenuItem>, cats: seq<string>): nat
  {
    if cats == [] then 0 else |Bucket(items, cats[0])| + SizeSum(items, cats[1..])
  }

  /** Membership in a bucket, both directions. */
  lemma {:induction false} BucketMembership(items: seq<MenuItem>, c: string, x: MenuItem)
    ensures x in Bucket(items, c) <==> x in items && x.category == c
  {
    if items != [] {
      var init := items[..|items| - 1];
      BucketMembership(init, c, x);
      assert items == init + [items[|items| - 1]];
    }
  }

  /** A bucket of a concatenation is the concatenation of the buckets: the
      partition keeps the input order and neither drops nor repeats an item. */
  lemma {:induction false} BucketAppend(a: seq<MenuItem>, b: seq<MenuItem>, c: string)
    ensures Bucket(a + b, c) == Bucket(a, c) + Bucket(b, c)
  {
    if b == [] {
      assert a + b == a;
    } else {
      var init := b[..|b| - 1];
      BucketAppend(a, init, c);
      assert (a + b)[..|a + b| - 1] == a + init;
      assert (a + b)[|a + b| - 1] == b[|b| - 1];
    }
  }

  /** A single item lands in its own category's bucket and in no other. */
  lemma BucketSingleton(x: MenuItem, c: string)
    ensures Bucket([x], c) == if x.category == c then [x] else []
  {
    assert [x][..0] == [];
  }

  /** The bucket sizes add up to the number of items whose category is one of
      the (distinct) bucket names: every such item is in exactly one bucket. */
  lemma {:induction false} BucketSizesSum(items: seq<MenuItem>, cats: seq<string>)
    requires NoDuplicates(cats)
    ensures SizeSum(items, cats) == |Within(items, cats)|
  {
    if items == [] {
      SizeSumOfEmpty(cats);
    } else {
      var init := items[..|items| - 1];
      var last := items[|items| - 1];
      assert items == init + [last];
      BucketSizesSum(init, cats);
      SizeSumStep(init, last, cats);
      CountDistinct(cats, last.category);
    }
  }

  lemma {:induction false} SizeSumOfEmpty(cats: seq<string>)
    ensures SizeSum([], cats) == 0
  {
    if cats != [] {
      SizeSumOfEmpty(cats[1..]);
    }
  }

  /** How many entries of `cats` equal `v`. */
  function Occurrences(cats: seq<string>, v: string): nat
  {
    if cats == [] then 0 else (if cats[0] == v then 1 else 0) + Occurrences(cats[1..], v)
  }

  lemma {:induction false} SizeSumStep(init: seq<MenuItem>, last: MenuItem, cats: seq<string>)
    ensures SizeSum(init + [last], cats) == SizeSum(init, cats) + Occurrences(cats, last.category)
  {
    if cats != [] {
      SizeSumStep(init, last, cats[1..]);
      assert (init + [last])[..|init + [last]| - 1] == init;
    }
  }

  lemma {:induction false} CountDistinct(cats: seq<string>, v: string)
    requires NoDuplicates(cats)
    ensures Occurrences(cats, v) == if v in cats then 1 else 0
  {
    if cats != [] {
      assert NoDuplicates(cats[1..]) by {
        forall i, j | 0 <= i < j < |cats[1..]| ensures cats[1..][i] != cats[1..][j] {
          assert cats[1..][i] == cats[i + 1] && cats[1..][j] == cats[j + 1];
        }
      }
      CountDistinct(cats[1..], v);
      if cats[0] == v {
        forall k | 0 <= k < |cats[1..]| ensures cats[1..][k] != v {
          assert cats[1..][k] == cats[k + 1];
        }
      }
      assert v in cats <==> cats[0] == v || v in cats[1..];
    }
  }

  /** The eight section names are distinct, so the eight buckets together hold
      exactly the items with a known category. */
  lemma KnownItemsAllBucketed(items: seq<MenuItem>)
    ensures SizeSum(items, Categories) == |Within(items, Categories)|
  {
    BucketSizesSum(items, Categories);
  }

  // ---------------------------------------------------------------------------
  // Section rendering

  /** What a grid container holds: the page's own markup, the placeholder
      message of an empty category, or one card per item. Each card embeds a
      snapshot of its item, which later cart and detail actions read back. */
  datatype Content = Static(markup: string) | Placeholder | Cards(cards: seq<MenuItem>)

  /** The grid containers present on the page, by element id. A missing key is
      a container the page does not have. */
  type Page = map<string, Content>

  /** Element id of a section's grid container. */
  function GridId(section: string): (g: string)
    ensures |g| == |section| + 5 && g[..|section|] == section && g[|section|..] == "-grid"
  {
    section + "-grid"
  }

  /** What a section shows for a bucket: the placeholder for an empty bucket,
      otherwise one card per item in bucket order. */
  function SectionContent(items: seq<MenuItem>): (content: Content)
    ensures content == Placeholder <==> items == []
    ensures items != [] ==> content == Cards(items)
  {
    if items == [] then Placeholder else Cards(items)
  }

  /** Renders one section: skipped when its container is missing, otherwise the
      container's previous contents are replaced. */
  function UpdateSection(page: Page, section: string, items: seq<MenuItem>): (p: Page)
    ensures GridId(section) !in page ==> p == page
    ensures p.Keys == page.Keys
    ensures forall g :: g in page && g != GridId(section) ==> p[g] == page[g]
    ensures GridId(section) in page ==> p[GridId(section)] == SectionContent(items)
  {
    if GridId(section) !in page then page
    else page[GridId(section) := SectionContent(items)]
  }

  /** Rendering replaces rather than appends: a second rendering of the same
      section leaves no trace of the first. */
  lemma UpdateSectionReplaces(page: Page, section: string, first: seq<MenuItem>, second: seq<MenuItem>)
    ensures UpdateSection(UpdateSection(page, section, first), section, second)
         == UpdateSection(page, section, second)
  {
  }

  /** The section whose grid container has element id `g`, if any. */
  function SectionOf(g: string): (r: Option<string>)
    ensures r.Some? ==> r.value in Categories && g == GridId(r.value)
    ensures forall c :: c in Categories && g == GridId(c) ==> r == Some(c)
  {
    if |g| >= 5 && g[|g| - 5..] == "-grid" && g[..|g| - 5] in Categories
    then Some(g[..|g| - 5])
    else None
  }

  /** The page after all eight sections are rendered from `items`: every known
      section's container holds its bucket, every other container is as it was. */
  function RenderCatalog(page: Page, items: seq<MenuItem>): (p: Page)
    ensures p.Keys == page.Keys
    ensures forall c :: c in Categories && GridId(c) in page ==>
      p[GridId(c)] == SectionContent(Bucket(items, c))
    ensures forall g :: g in page && SectionOf(g).None? ==> p[g] == page[g]
  {
    map g | g in page ::
      match SectionOf(g)
      case Some(c) => SectionContent(Bucket(items, c))
      case None => page[g]
  }

  /** An item whose category is not one of the eight appears in no section
      after rendering. */
  lemma UnknownCategoryRendersNowhere(page: Page, items: seq<MenuItem>, x: MenuItem, c: string)
    requires x.category !in Categories
    requires c in Categories && GridId(c) in page
    ensures RenderCatalog(page, items)[GridId(c)] == Placeholder ||
            x !in RenderCatalog(page, items)[GridId(c)].cards
  {
    BucketMembership(items, c, x);
  }

  /** Rendering items that all have one category (the response to a category
      button) leaves every other present section showing the placeholder. */
  lemma FilteredResponseBlanksOtherSections(page: Page, items: seq<MenuItem>, c: string, d: string)
    requires forall k :: 0 <= k < |items| ==> items[k].category == c
    requires d in Categories && d != c && GridId(d) in page
    ensures RenderCatalog(page, items)[GridId(d)] == Placeholder
  {
    var b := Bucket(items, d);
    if b != [] {
      assert b[0] in b;
      BucketMembership(items, d, b[0]);
      assert false;
    }
  }

  // ---------------------------------------------------------------------------
  // The partition loop and the loader

  /** What displayMenuItems does: renders the page, or throws before any
      section is touched. */
  datatype Outcome = Rendered(page: Page) | Threw

  /** The forEach pass of displayMenuItems: distributes the items over the
      eight buckets, keeping input order and dropping unknown categories. An
      item whose category names an inherited object property makes the pass
      throw (None). */
  method PartitionByCategory(items: seq<MenuItem>) returns (r: Option<map<string, seq<MenuItem>>>)
    ensures r.None? <==> HitsPrototypeKey(items)
    ensures r.Some? ==> HoldsBuckets(r.value, items)
  {
    var buckets: map<string, seq<MenuItem>> := map c | c in Categories :: [];
    var i := 0;
    while i < |items|
      invariant 0 <= i <= |items|
      invariant HoldsBuckets(buckets, items[..i])
      invariant !HitsPrototypeKey(items[..i])
    {
      var item := items[i];
      if item.category in buckets {
        SectionsAreNotPrototypeKeys(item.category);
        PushKeepsBuckets(items, i, buckets);
        buckets := buckets[item.category := buckets[item.category] + [item]];
      } else if item.category in PrototypeKeys {
        assert 0 <= i < |items| && items[i].category in PrototypeKeys;
        return None;
      } else {
        SkipKeepsBuckets(items, i, buckets);
      }
      NoHitStep(items, i);
      i := i + 1;
    }
    assert items[..i] == items;
    r := Some(buckets);
  }

  /** `buckets` has exactly the eight section names as keys, and each holds the
      items of `seen` of that category, in order. */
  ghost predicate HoldsBuckets(buckets: map<string, seq<MenuItem>>, seen: seq<MenuItem>)
  {
    (forall c :: c in buckets <==> c in Categories) &&
    forall c :: c in Categories ==> buckets[c] == Bucket(seen, c)
  }

  /** displayMenuItems: partitions the items, then renders the eight sections
      in order. A throw in the partition happens before any section is
      touched. */
  method DisplayMenuItems(page: Page, items: seq<MenuItem>) returns (r: Outcome)
    ensures r.Threw? <==> HitsPrototypeKey(items)
    ensures r.Rendered? ==> r.page == RenderCatalog(page, items)
  {
    var buckets := PartitionByCategory(items);
    if buckets.None? {
      return Threw;
    }
    var p := page;
    for j := 0 to |Categories|
      invariant p.Keys == page.Keys
      invariant forall g :: g in page ==> p[g] == RenderedSoFar(page, items, Categories[..j], g)
    {
      var c := Categories[j];
      assert Categories[..j + 1] == Categories[..j] + [c];
      assert buckets.value[c] == Bucket(items, c);
      p := UpdateSection(p, c, buckets.value[c]);
    }
    assert Categories[..|Categories|] == Categories;
    r := Rendered(p);
  }

  /** An item whose category is no inherited property extends a throw-free
      prefix to a throw-free prefix. */
  lemma NoHitStep(items: seq<MenuItem>, i: nat)
    requires i < |items| && items[i].category !in PrototypeKeys
    requires !HitsPrototypeKey(items[..i])
    ensures !HitsPrototypeKey(items[..i + 1])
  {
    var seen := items[..i + 1];
    forall k | 0 <= k < |seen| ensures seen[k].category !in PrototypeKeys {
      if k < i {
        assert seen[k] == items[..i][k];
      }
    }
  }

  /** Pushing an item onto its own bucket keeps every bucket equal to the
      filter of the items seen so far. */
  lemma PushKeepsBuckets(items: seq<MenuItem>, i: nat, buckets: map<string, seq<MenuItem>>)
    requires i < |items| && items[i].category in buckets
    requires HoldsBuckets(buckets, items[..i])
    ensures HoldsBuckets(buckets[items[i].category := buckets[items[i].category] + [items[i]]], items[..i + 1])
  {
    forall c | c in Categories {
      BucketStep(items, i, c);
    }
  }

  /** An item of no known category leaves every bucket as it was. */
  lemma SkipKeepsBuckets(items: seq<MenuItem>, i: nat, buckets: map<string, seq<MenuItem>>)
    requires i < |items| && items[i].category !in buckets
    requires HoldsBuckets(buckets, items[..i])
    ensures HoldsBuckets(buckets, items[..i + 1])
  {
    forall c | c in Categories {
      BucketStep(items, i, c);
    }
  }

  lemma BucketStep(items: seq<MenuItem>, i: nat, c: string)
    requires i < |items|
    ensures Bucket(items[..i + 1], c) == Bucket(items[..i], c) + (if items[i].category == c then [items[i]] else [])
  {
    assert items[..i + 1][..i] == items[..i];
  }

  /** What container `g` holds once the sections `done` have been rendered. */
  function RenderedSoFar(page: Page, items: seq<MenuItem>, done: seq<string>, g: string): Content
    requires g in page
  {
    match SectionOf(g)
    case Some(c) => if c in done then SectionContent(Bucket(items, c)) else page[g]
    case None => page[g]
  }

  /** The base address of the menu endpoint. */
  function MenuBase(): string
  {
    ApiUrl + "/menu"
  }

  /** The request URL: the menu endpoint with a category query when a
      (non-empty) category is given, the bare endpoint otherwise. */
  function MenuUrl(category: string): (url: string)
    ensures |url| >= |MenuBase()| && url[..|MenuBase()|] == MenuBase()
    ensures category == "" <==> url == MenuBase()
  {
    if category != "" then MenuBase() + "?category=" + category else MenuBase()
  }

  /** Reads the requested category back out of a request URL string; "" for
      the bare endpoint, None for a URL that is not a menu request. This is a
      split of the string, not the server's query decoding: the category is
      inserted unencoded, so only a category without URL-special characters
      (as all eight section names are) reaches the server unchanged. */
  function CategoryOfUrl(url: string): Option<string>
  {
    var query := MenuBase() + "?category=";
    if url == MenuBase() then Some("")
    else if |url| > |query| && url[..|query|] == query then Some(url[|query|..])
    else None
  }

  /** The category can always be recovered from the request URL, so distinct
      categories give distinct requests. */
  lemma MenuUrlRoundTrip(category: string)
    ensures CategoryOfUrl(MenuUrl(category)) == Some(category)
  {
    var query := MenuBase() + "?category=";
    if category != "" {
      assert MenuUrl(category) == query + category;
      assert (query + category)[..|query|] == query;
      assert (query + category)[|query|..] == category;
    }
  }

  lemma MenuUrlInjective(a: string, b: string)
    requires MenuUrl(a) == MenuUrl(b)
    ensures a == b
  {
    MenuUrlRoundTrip(a);
    MenuUrlRoundTrip(b);
  }

  /** The response as the loader sees it after `response.json()`: the
      request failed or its status was not a success, the body was the JSON
      literal `null`, or it was an array of items. */
  datatype MenuBody = FetchFailed | NullBody | ItemArray(items: seq<MenuItem>)

  /** The body the menu endpoint writes for the rows its query returns
      (backend/main.go): the item slice starts out nil and only grows by
      appends, and Go's JSON encoder writes a nil slice as `null`. */
  function ServedBody(rows: seq<MenuItem>): (b: MenuBody)
    ensures b.NullBody? <==> rows == []
    ensures b.ItemArray? ==> b.items == rows
    ensures !b.FetchFailed?
  {
    if rows == [] then NullBody else ItemArray(rows)
  }

  /** The body the endpoint evidently means to write: the item array, `[]`
      when no row matches (an empty, non-nil slice). */
  function IntendedBody(rows: seq<MenuItem>): MenuBody
  {
    ItemArray(rows)
  }

  /** What one load does with a body: a failed request throws, `null` makes
      `items.forEach` throw, and an item array is rendered unless its
      partition throws. Every throw is caught: the page stays as it was and
      the error banner is shown. */
  function LoadOutcome(page: Page, body: MenuBody): (r: Outcome)
    ensures r == Threw <==> !body.ItemArray? || HitsPrototypeKey(body.items)
    ensures r.Rendered? ==> body.ItemArray? && r.page == RenderCatalog(page, body.items)
  {
    match body
    case ItemArray(items) =>
      if HitsPrototypeKey(items) then Threw else Rendered(RenderCatalog(page, items))
    case _ => Threw
  }

  /** Loads the catalog: the request goes to MenuUrl(category) and `body` is
      what came back. A throw anywhere leaves the page as it was and shows the
      error banner; otherwise the sections are rendered from the items. */
  method LoadMenuItems(page: Page, category: string, body: MenuBody)
    returns (url: string, after: Page, errorShown: bool)
    ensures url == MenuUrl(category)
    ensures errorShown <==> LoadOutcome(page, body) == Threw
    ensures errorShown ==> after == page
    ensures !errorShown ==> after == LoadOutcome(page, body).page
  {
    url := MenuUrl(category);
    if !body.ItemArray? {
      return url, page, true;
    }
    var outcome := DisplayMenuItems(page, body.items);
    match outcome
    case Threw =>
      after, errorShown := page, true;
    case Rendered(p) =>
      after, errorShown := p, false;
  }

  /** The items of a response in which every item has category `c` form the
      whole bucket of `c`. */
  lemma {:induction false} BucketOfUniform(items: seq<MenuItem>, c: string)
    requires forall k :: 0 <= k < |items| ==> items[k].category == c
    ensures Bucket(items, c) == items
  {
    if items != [] {
      var init := items[..|items| - 1];
      BucketOfUniform(init, c);
      assert items == init + [items[|items| - 1]];
    }
  }

  /** A category filter as served: when the category has items, every other
      present section shows the placeholder; when it has none, the body is
      `null` and the load shows the error banner and changes nothing. */
  lemma FilteredLoadAsServed(page: Page, rows: seq<MenuItem>, c: string, d: string)
    requires c in Categories
    requires forall k :: 0 <= k < |rows| ==> rows[k].category == c
    requires d in Categories && d != c && GridId(d) in page
    ensures rows == [] ==> LoadOutcome(page, ServedBody(rows)) == Threw
    ensures rows != [] ==>
      LoadOutcome(page, ServedBody(rows)).Rendered? &&
      LoadOutcome(page, ServedBody(rows)).page[GridId(d)] == Placeholder
  {
    if rows != [] {
      SectionsAreNotPrototypeKeys(c);
      FilteredResponseBlanksOtherSections(page, rows, c, d);
    }
  }

  /** A category filter with the intended body: the load always renders; the
      filtered section shows exactly its items (the placeholder when there
      are none) and every other present section shows the placeholder. */
  lemma FilteredLoadIntended(page: Page, rows: seq<MenuItem>, c: string, d: string)
    requires c in Categories
    requires forall k :: 0 <= k < |rows| ==> rows[k].category == c
    requires d in Categories && d != c && GridId(d) in page
    ensures LoadOutcome(page, IntendedBody(rows)).Rendered?
    ensures LoadOutcome(page, IntendedBody(rows)).page[GridId(d)] == Placeholder
    ensures GridId(c) in page ==>
      LoadOutcome(page, IntendedBody(rows)).page[GridId(c)] == SectionContent(rows)
  {
    SectionsAreNotPrototypeKeys(c);
    FilteredResponseBlanksOtherSections(page, rows, c, d);
    BucketOfUniform(rows, c);
  }
}
