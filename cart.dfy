/** The cart store of the menu page (js/menu-dynamic.js): the in-memory cart,
    its copy in the browser storage slot "cart", the cart-count badge, the
    "added to cart" notifications, and the detail view whose order button adds
    to the cart. */
module Cart {
  import opened Optional
  import opened Catalog
  import opened Lookup

  /** One cart line: a snapshot of the item's id, title, price and image path,
      and how many of it the cart holds. */
  datatype CartLine = CartLine(id: int, title: string, price: real, imageUrl: string, quantity: int)

  /** The cart invariant: lines are unique by id and every quantity is at
      least 1. In a valid cart every line is the one the `cart.find` lookup
      returns for its id. */
  predicate ValidCart(lines: seq<CartLine>)
    ensures ValidCart(lines) ==>
      forall k :: 0 <= k < |lines| ==> FindLine(lines, lines[k].id) == Some(k)
  {
    (forall i, j :: 0 <= i < j < |lines| ==> lines[i].id != lines[j].id) &&
    forall i :: 0 <= i < |lines| ==> lines[i].quantity >= 1
  }

  /** The ids present in the cart. */
  function Ids(lines: seq<CartLine>): set<int>
  {
    set l | l in lines :: l.id
  }

  /** The line a first add of `item` creates: on its own it is a valid cart
      holding the item's id. */
  function NewLine(item: MenuItem): (l: CartLine)
    ensures ValidCart([l]) && Ids([l]) == {item.id}
  {
    CartLine(item.id, item.title, item.price, item.imageUrl, 1)
  }

  /** Position of the first line with id `id` (`cart.find`). */
  function FindLine(lines: seq<CartLine>, id: int): (r: Option<nat>)
    ensures r.Some? ==>
      r.value < |lines| && lines[r.value].id == id &&
      forall j :: 0 <= j < r.value ==> lines[j].id != id
    ensures r.None? <==> id !in Ids(lines)
  {
    if lines == [] then None
    else if lines[0].id == id then Some(0)
    else
      match FindLine(lines[1..], id)
      case None =>
        assert Ids(lines) == {lines[0].id} + Ids(lines[1..]) by {
          assert lines == [lines[0]] + lines[1..];
        }
        None
      case Some(k) => Some(k + 1)
  }

  /** The cart after adding `item`: the first line with the item's id has its
      quantity raised by one; if there is none, a new line is appended. */
  function AddLine(lines: seq<CartLine>, item: MenuItem): (r: seq<CartLine>)
    ensures |r| == |lines| || |r| == |lines| + 1
  {
    match FindLine(lines, item.id)
    case Some(k) => lines[k := lines[k].(quantity := lines[k].quantity + 1)]
    case None => lines + [NewLine(item)]
  }

  /** Sum of the quantities, accumulated left to right (`cart.reduce`). */
  function Total(lines: seq<CartLine>): int
  {
    if lines == [] then 0 else Total(lines[..|lines| - 1]) + lines[|lines| - 1].quantity
  }

  /** The cart read back from the storage slot at start-up: an empty slot
      gives the empty cart. */
  function Restore(slot: Option<seq<CartLine>>): seq<CartLine>
  {
    if slot.None? then [] else slot.value
  }

  // ---------------------------------------------------------------------------
  // Properties of a single add

  /** Adding an id already in the cart raises the quantity of the first line
      with that id by exactly one; the cart keeps its length and every other
      line. This holds for any cart, validated or not; in a valid cart that
      line is the only one with the id. */
  lemma AddToExistingLine(lines: seq<CartLine>, item: MenuItem, k: nat)
    requires k < |lines| && lines[k].id == item.id
    requires forall j :: 0 <= j < k ==> lines[j].id != item.id
    ensures |AddLine(lines, item)| == |lines|
    ensures AddLine(lines, item)[k] == lines[k].(quantity := lines[k].quantity + 1)
    ensures forall j :: 0 <= j < |lines| && j != k ==> AddLine(lines, item)[j] == lines[j]
  {
    var f := FindLine(lines, item.id);
    assert f.Some? by {
      assert lines[k] in lines;
    }
  }

  /** Adding an id not in the cart appends one line with quantity 1 built
      from the item's snapshot; the earlier lines are unchanged. */
  lemma AddNewLine(lines: seq<CartLine>, item: MenuItem)
    requires item.id !in Ids(lines)
    ensures AddLine(lines, item) == lines + [CartLine(item.id, item.title, item.price, item.imageUrl, 1)]
  {
  }

  /** An add keeps the cart invariant. */
  lemma AddKeepsValid(lines: seq<CartLine>, item: MenuItem)
    requires ValidCart(lines)
    ensures ValidCart(AddLine(lines, item))
  {
    var r := AddLine(lines, item);
    if FindLine(lines, item.id).None? {
      forall i | 0 <= i < |lines| ensures lines[i].id != item.id {
        assert lines[i] in lines;
      }
    }
  }

  /** An add changes the set of ids by exactly the item's id. */
  lemma AddIds(lines: seq<CartLine>, item: MenuItem)
    ensures Ids(AddLine(lines, item)) == Ids(lines) + {item.id}
  {
    var r := AddLine(lines, item);
    match FindLine(lines, item.id)
    case None =>
    case Some(k) =>
      forall x | x in Ids(lines) ensures x in Ids(r) {
        var l :| l in lines && l.id == x;
        var i :| 0 <= i < |lines| && lines[i] == l;
        assert r[i].id == x;
      }
      forall x | x in Ids(r) ensures x in Ids(lines) {
        var l :| l in r && l.id == x;
        var i :| 0 <= i < |r| && r[i] == l;
        assert lines[i].id == x;
      }
  }

  /** Total of an appended cart. */
  lemma TotalAppend(lines: seq<CartLine>, l: CartLine)
    ensures Total(lines + [l]) == Total(lines) + l.quantity
  {
    assert (lines + [l])[..|lines|] == lines;
  }

  /** Raising one line's quantity by one raises the total by one. */
  lemma {:induction false} TotalIncrement(lines: seq<CartLine>, k: nat)
    requires k < |lines|
    ensures Total(lines[k := lines[k].(quantity := lines[k].quantity + 1)]) == Total(lines) + 1
  {
    var r := lines[k := lines[k].(quantity := lines[k].quantity + 1)];
    var n := |lines| - 1;
    if k < n {
      TotalIncrement(lines[..n], k);
      assert r[..n] == lines[..n][k := lines[k].(quantity := lines[k].quantity + 1)];
    } else {
      assert r[..n] == lines[..n];
    }
  }

  /** Every add, new line or not, raises the badge total by exactly one. */
  lemma AddGrowsTotal(lines: seq<CartLine>, item: MenuItem)
    ensures Total(AddLine(lines, item)) == Total(lines) + 1
  {
    match FindLine(lines, item.id)
    case Some(k) => TotalIncrement(lines, k);
    case None => TotalAppend(lines, NewLine(item));
  }

  /** In a valid cart the total is at least the number of lines, so it is
      positive exactly when the cart is not empty. */
  lemma {:induction false} TotalOfValid(lines: seq<CartLine>)
    requires ValidCart(lines)
    ensures Total(lines) >= |lines|
    ensures Total(lines) > 0 <==> lines != []
  {
    if lines != [] {
      var init := lines[..|lines| - 1];
      assert ValidCart(init);
      TotalOfValid(init);
    }
  }

  /** In a valid cart there are as many lines as distinct ids. */
  lemma {:induction false} DistinctIdsCount(lines: seq<CartLine>)
    requires ValidCart(lines)
    ensures |Ids(lines)| == |lines|
  {
    if lines != [] {
      var init := lines[..|lines| - 1];
      ValidPrefix(lines);
      DistinctIdsCount(init);
      IdsOfPrefix(lines);
      LastIdIsNew(lines);
    }
  }

  /** Dropping the last line of a valid cart leaves a valid cart. */
  lemma ValidPrefix(lines: seq<CartLine>)
    requires ValidCart(lines) && lines != []
    ensures ValidCart(lines[..|lines| - 1])
  {
  }

  /** The ids of a cart are those of all but its last line, plus the last
      line's id. */
  lemma IdsOfPrefix(lines: seq<CartLine>)
    requires lines != []
    ensures Ids(lines) == Ids(lines[..|lines| - 1]) + {lines[|lines| - 1].id}
  {
    assert lines == lines[..|lines| - 1] + [lines[|lines| - 1]];
  }

  /** In a valid cart the last line's id occurs in no earlier line. */
  lemma LastIdIsNew(lines: seq<CartLine>)
    requires ValidCart(lines) && lines != []
    ensures lines[|lines| - 1].id !in Ids(lines[..|lines| - 1])
  {
    var init, last := lines[..|lines| - 1], lines[|lines| - 1];
    forall l | l in init ensures l.id != last.id {
      var i :| 0 <= i < |init| && init[i] == l;
      assert lines[i] == l;
    }
  }

  // ---------------------------------------------------------------------------
  // Properties of a sequence of adds

  /** The cart after adding `items` one after the other. */
  function AddAll(lines: seq<CartLine>, items: seq<MenuItem>): seq<CartLine>
    decreases |items|
  {
    if items == [] then lines else AddAll(AddLine(lines, items[0]), items[1..])
  }

  /** The ids of a sequence of items. */
  function ItemIds(items: seq<MenuItem>): set<int>
  {
    set x | x in items :: x.id
  }

  /** Any sequence of adds keeps a valid cart valid and raises the total by
      the number of adds. */
  lemma {:induction false} AddAllValidTotal(lines: seq<CartLine>, items: seq<MenuItem>)
    requires ValidCart(lines)
    ensures ValidCart(AddAll(lines, items))
    ensures Total(AddAll(lines, items)) == Total(lines) + |items|
    decreases |items|
  {
    if items != [] {
      var next := AddLine(lines, items[0]);
      assert AddAll(lines, items) == AddAll(next, items[1..]);
      AddKeepsValid(lines, items[0]);
      AddGrowsTotal(lines, items[0]);
      AddAllValidTotal(next, items[1..]);
    }
  }

  /** After any sequence of adds the ids are the old ids plus the added ones. */
  lemma {:induction false} AddAllIds(lines: seq<CartLine>, items: seq<MenuItem>)
    ensures Ids(AddAll(lines, items)) == Ids(lines) + ItemIds(items)
    decreases |items|
  {
    if items != [] {
      var next := AddLine(lines, items[0]);
      assert AddAll(lines, items) == AddAll(next, items[1..]);
      AddIds(lines, items[0]);
      AddAllIds(next, items[1..]);
      ItemIdsCons(items);
    }
  }

  lemma ItemIdsCons(items: seq<MenuItem>)
    requires items != []
    ensures ItemIds(items) == {items[0].id} + ItemIds(items[1..])
  {
    assert items == [items[0]] + items[1..];
  }

  /** After any sequence of adds to a valid cart there is exactly one line per
      distinct id added or already present. */
  lemma LinesMatchDistinctIds(lines: seq<CartLine>, items: seq<MenuItem>)
    requires ValidCart(lines)
    ensures |AddAll(lines, items)| == |Ids(lines) + ItemIds(items)|
  {
    AddAllValidTotal(lines, items);
    AddAllIds(lines, items);
    DistinctIdsCount(AddAll(lines, items));
  }

  /** Adding the same item twice to an empty cart gives one line of quantity
      2, not two lines. */
  lemma AddTwice(item: MenuItem)
    ensures AddAll([], [item, item]) == [CartLine(item.id, item.title, item.price, item.imageUrl, 2)]
  {
    var once := AddLine([], item);
    assert once == [NewLine(item)];
    assert FindLine(once, item.id) == Some(0);
    assert [item, item][1..] == [item];
    assert AddAll([], [item, item]) == AddAll(once, [item]);
    assert AddAll(once, [item]) == AddAll(AddLine(once, item), []);
  }

  // ---------------------------------------------------------------------------
  // The store

  /** The cart-count badge in the navigation bar: absent, or showing a count
      and either displayed or hidden. */
  datatype Badge = NoBadge | Badge(count: int, displayed: bool)

  /** The badge after a refresh for `total`: created when missing and the page
      has a navigation list to hold it, and displayed only for a positive
      total. */
  function RefreshBadge(badge: Badge, hasNavLinks: bool, total: int): (r: Badge)
    ensures r.NoBadge? <==> badge.NoBadge? && !hasNavLinks
    ensures r.Badge? ==> r.count == total && (r.displayed <==> total > 0)
  {
    if badge.NoBadge? && !hasNavLinks then NoBadge else Badge(total, total > 0)
  }

  /** In a valid cart the badge is displayed exactly when the cart is not
      empty. */
  lemma BadgeDisplayedIffNonEmpty(lines: seq<CartLine>, badge: Badge, hasNavLinks: bool)
    requires ValidCart(lines)
    requires RefreshBadge(badge, hasNavLinks, Total(lines)).Badge?
    ensures RefreshBadge(badge, hasNavLinks, Total(lines)).displayed <==> lines != []
  {
    TotalOfValid(lines);
  }

  /** The notification shown after an add; it begins with the item's
      title. */
  function AddedMessage(item: MenuItem): (m: string)
    ensures |m| > |item.title| && m[..|item.title|] == item.title
  {
    item.title + " added to cart!"
  }

  class CartStore {
    /** The global cart. */
    var lines: seq<CartLine>
    /** The storage slot "cart"; None while nothing has been stored. */
    var slot: Option<seq<CartLine>>
    /** The cart-count badge. */
    var badge: Badge
    /** Whether the page has the navigation list a new badge is attached to. */
    const hasNavLinks: bool
    /** The notifications shown so far, oldest first. */
    var notices: seq<string>

    /** Start-up: the cart is read from the storage slot. */
    constructor Load(stored: Option<seq<CartLine>>, hasNavLinks: bool, badge: Badge)
      ensures lines == Restore(stored) && slot == stored
      ensures this.badge == badge && this.hasNavLinks == hasNavLinks && notices == []
    {
      lines := Restore(stored);
      slot := stored;
      this.badge := badge;
      this.hasNavLinks := hasNavLinks;
      notices := [];
    }

    /** Shows the total quantity on the badge, creating the badge if needed,
        and hides it when the total is 0. */
    method UpdateCartCount()
      modifies this`badge
      ensures badge == RefreshBadge(old(badge), hasNavLinks, Total(lines))
    {
      var total := Total(lines);
      if badge.NoBadge? && hasNavLinks {
        badge := Badge(total, true);
      }
      if badge.Badge? {
        badge := Badge(total, total > 0);
      }
    }

    /** Adds the card with id `itemId` among the rendered cards (`rendered`,
        in document order) to the cart, stores the whole cart, refreshes the
        badge and shows a notification. An id with no rendered card changes
        nothing. */
    method AddToCart(itemId: int, rendered: seq<MenuItem>)
      modifies this`lines, this`slot, this`badge, this`notices
      ensures FindSnapshot(rendered, itemId).None? ==>
        lines == old(lines) && slot == old(slot) && badge == old(badge) && notices == old(notices)
      ensures FindSnapshot(rendered, itemId).Some? ==>
        var item := FindSnapshot(rendered, itemId).value;
        && lines == AddLine(old(lines), item)
        && slot == Some(lines)
        && badge == RefreshBadge(old(badge), hasNavLinks, Total(lines))
        && notices == old(notices) + [AddedMessage(item)]
    {
      var found := FindSnapshot(rendered, itemId);
      if found.None? {
        return;
      }
      var item := found.value;
      var existing := FindLine(lines, item.id);
      if existing.Some? {
        var k := existing.value;
        lines := lines[k := lines[k].(quantity := lines[k].quantity + 1)];
      } else {
        lines := lines + [NewLine(item)];
      }
      slot := Some(lines);
      UpdateCartCount();
      notices := notices + [AddedMessage(item)];
    }
  }

  /** A valid cart stays valid, and the slot keeps reading back as the cart,
      across an add. This holds from start-up, when an absent slot reads
      back as the empty cart, and again after every add, so adds chain. */
  method AddKeepsStoreConsistent(store: CartStore, itemId: int, rendered: seq<MenuItem>)
    requires ValidCart(store.lines)
    requires Restore(store.slot) == store.lines
    modifies store
    ensures ValidCart(store.lines)
    ensures Restore(store.slot) == store.lines
    ensures Total(store.lines) == old(Total(store.lines)) + (if FindSnapshot(rendered, itemId).Some? then 1 else 0)
  {
    ghost var before := store.lines;
    store.AddToCart(itemId, rendered);
    if FindSnapshot(rendered, itemId).Some? {
      AddKeepsValid(before, FindSnapshot(rendered, itemId).value);
      AddGrowsTotal(before, FindSnapshot(rendered, itemId).value);
    }
  }

  // ---------------------------------------------------------------------------
  // The detail view

  /** Origin the image paths are relative to (the API address without /api). */
  const AssetBase: string := "http://localhost:8080"

  /** What the detail view displays for an item. */
  datatype Details = Details(imageSrc: string, title: string, description: string, price: real, ingredients: string)

  /** The detail view's fields for `item`. The image path can be read back
      from the image address, and the ingredients line is never blank: it
      shows the item's ingredients whenever it has any. */
  function DetailsOf(item: MenuItem): (d: Details)
    ensures d.title == item.title && d.description == item.description && d.price == item.price
    ensures |d.imageSrc| >= |AssetBase| && d.imageSrc[..|AssetBase|] == AssetBase
    ensures d.imageSrc[|AssetBase|..] == item.imageUrl
    ensures d.ingredients != ""
    ensures item.ingredients != "" ==> d.ingredients == item.ingredients
  {
    Details(AssetBase + item.imageUrl, item.title, item.description, item.price,
            if item.ingredients != "" then item.ingredients else "Not specified")
  }

  class DetailView {
    /** Whether the page has the modal element. */
    const hasModal: bool
    /** The fields currently displayed, None until a first view. */
    var details: Option<Details>
    /** The item id the modal's order button adds, None until a first view. */
    var orderId: Option<int>
    /** Whether the modal is showing. */
    var open: bool

    constructor (hasModal: bool)
      ensures this.hasModal == hasModal && details == None && orderId == None && !open
    {
      this.hasModal := hasModal;
      details := None;
      orderId := None;
      open := false;
    }

    /** Shows the details of the rendered card with id `itemId`, replacing
        whatever was shown, and binds the order button to that item. An id
        with no rendered card changes nothing. */
    method ViewDetails(itemId: int, rendered: seq<MenuItem>)
      modifies this`details, this`orderId, this`open
      ensures FindSnapshot(rendered, itemId).None? ==>
        details == old(details) && orderId == old(orderId) && open == old(open)
      ensures FindSnapshot(rendered, itemId).Some? ==>
        var item := FindSnapshot(rendered, itemId).value;
        && details == Some(DetailsOf(item))
        && orderId == Some(item.id)
        && open == (hasModal || old(open))
    {
      var found := FindSnapshot(rendered, itemId);
      if found.None? {
        return;
      }
      var item := found.value;
      details := Some(DetailsOf(item));
      orderId := Some(item.id);
      if hasModal {
        open := true;
      }
    }

    /** Hides the modal; hiding an already hidden modal is harmless. */
    method Hide()
      modifies this`open
      ensures hasModal ==> !open
      ensures !hasModal ==> open == old(open)
    {
      if hasModal {
        open := false;
      }
    }

    /** The order button: adds the bound item to the cart, then hides the
        modal. Before any view the button has no action. */
    method Order(store: CartStore, rendered: seq<MenuItem>)
      modifies this`open, store`lines, store`slot, store`badge, store`notices
      ensures orderId.None? ==>
        open == old(open) &&
        store.lines == old(store.lines) && store.slot == old(store.slot) &&
        store.badge == old(store.badge) && store.notices == old(store.notices)
      ensures orderId.Some? ==> (hasModal ==> !open) && (!hasModal ==> open == old(open))
      ensures orderId.Some? && FindSnapshot(rendered, orderId.value).None? ==>
        store.lines == old(store.lines) && store.slot == old(store.slot) &&
        store.badge == old(store.badge) && store.notices == old(store.notices)
      ensures orderId.Some? && FindSnapshot(rendered, orderId.value).Some? ==>
        var item := FindSnapshot(rendered, orderId.value).value;
        && store.lines == AddLine(old(store.lines), item)
        && store.slot == Some(store.lines)
        && store.badge == RefreshBadge(old(store.badge), store.hasNavLinks, Total(store.lines))
        && store.notices == old(store.notices) + [AddedMessage(item)]
    {
      if orderId.None? {
        return;
      }
      store.AddToCart(orderId.value, rendered);
      Hide();
    }
  }
}
