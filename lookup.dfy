/** Finding the rendered card of an item by id (js/menu-dynamic.js, the
    attribute selector in addToCart and viewDetails).

    Every card carries its item's JSON text in a `data-item` attribute, and the
    page looks a card up with the selector `[data-item*='"id":N']`, a substring
    test. In the JSON text of an item, `"id":` occurs once, followed by the
    decimal id and a comma; inside string values quotes are escaped, so the
    pattern cannot start there. The selector therefore matches exactly the
    cards whose decimal id STARTS WITH the decimal text of N, and the browser
    returns the first such card in document order. */
module Lookup {
  import opened Optional
  import opened Catalog

  /** Decimal digits of a natural number, most significant first. */
  function Digits(n: nat): string
  {
    if n < 10 then ["0123456789"[n]]
    else Digits(n / 10) + ["0123456789"[n % 10]]
  }

  /** How JavaScript writes an integer into a template string or JSON. */
  function NumberText(i: int): string
  {
    if i < 0 then "-" + Digits(-i) else Digits(i)
  }

  /** Whether the card of `snapshot` matches the selector built for `itemId`;
      a card always matches the selector built from its own id. */
  predicate SelectorMatches(itemId: int, snapshot: MenuItem)
    ensures snapshot.id == itemId ==> SelectorMatches(itemId, snapshot)
  {
    NumberText(itemId) <= NumberText(snapshot.id)
  }

  /** Position of the first card, in document order, that the selector for
      `itemId` matches. */
  function SelectorIndex(rendered: seq<MenuItem>, itemId: int): (r: Option<nat>)
    ensures r.Some? ==>
      r.value < |rendered| && SelectorMatches(itemId, rendered[r.value]) &&
      forall j :: 0 <= j < r.value ==> !SelectorMatches(itemId, rendered[j])
    ensures r.None? ==> forall k :: 0 <= k < |rendered| ==> !SelectorMatches(itemId, rendered[k])
  {
    if rendered == [] then None
    else if SelectorMatches(itemId, rendered[0]) then Some(0)
    else
      match SelectorIndex(rendered[1..], itemId)
      case None => None
      case Some(k) => Some(k + 1)
  }

  /** The lookup as written: the first card whose id merely starts with the
      digits of `itemId`. */
  function SelectorFind(rendered: seq<MenuItem>, itemId: int): (r: Option<MenuItem>)
    ensures r.Some? ==> SelectorMatches(itemId, r.value) && r.value in rendered
    ensures r.Some? ==>
      exists k :: 0 <= k < |rendered| && rendered[k] == r.value &&
        forall j :: 0 <= j < k ==> !SelectorMatches(itemId, rendered[j])
    ensures r.None? <==> forall k :: 0 <= k < |rendered| ==> !SelectorMatches(itemId, rendered[k])
  {
    match SelectorIndex(rendered, itemId)
    case None => None
    case Some(k) => Some(rendered[k])
  }

  /** Position of the first card, in document order, whose id is `itemId`. */
  function SnapshotIndex(rendered: seq<MenuItem>, itemId: int): (r: Option<nat>)
    ensures r.Some? ==>
      r.value < |rendered| && rendered[r.value].id == itemId &&
      forall j :: 0 <= j < r.value ==> rendered[j].id != itemId
    ensures r.None? ==> forall k :: 0 <= k < |rendered| ==> rendered[k].id != itemId
  {
    if rendered == [] then None
    else if rendered[0].id == itemId then Some(0)
    else
      match SnapshotIndex(rendered[1..], itemId)
      case None => None
      case Some(k) => Some(k + 1)
  }

  /** The intended lookup: the first card whose id is `itemId`; None exactly
      when no rendered card has that id. */
  function FindSnapshot(rendered: seq<MenuItem>, itemId: int): (r: Option<MenuItem>)
    ensures r.Some? ==> r.value.id == itemId && r.value in rendered
    ensures r.Some? ==>
      exists k :: 0 <= k < |rendered| && rendered[k] == r.value &&
        forall j :: 0 <= j < k ==> rendered[j].id != itemId
    ensures r.None? <==> forall k :: 0 <= k < |rendered| ==> rendered[k].id != itemId
  {
    match SnapshotIndex(rendered, itemId)
    case None => None
    case Some(k) => Some(rendered[k])
  }

  /** When no rendered id merely extends the digits of `itemId`, the selector
      finds the intended card. */
  lemma {:induction false} SelectorAgreesWithoutLongerIds(rendered: seq<MenuItem>, itemId: int)
    requires forall k :: 0 <= k < |rendered| && SelectorMatches(itemId, rendered[k]) ==> rendered[k].id == itemId
    ensures SelectorIndex(rendered, itemId) == SnapshotIndex(rendered, itemId)
    ensures SelectorFind(rendered, itemId) == FindSnapshot(rendered, itemId)
  {
    if rendered != [] {
      assert SelectorMatches(rendered[0].id, rendered[0]);
      if rendered[0].id != itemId {
        forall k | 0 <= k < |rendered[1..]| && SelectorMatches(itemId, rendered[1..][k])
          ensures rendered[1..][k].id == itemId
        {
          assert rendered[1..][k] == rendered[k + 1];
        }
        SelectorAgreesWithoutLongerIds(rendered[1..], itemId);
      }
    }
  }

  /** The menu endpoint lists items by descending id, so item 12's card comes
      before item 1's; the selector for item 1 then picks item 12. */
  lemma SelectorPicksLongerId(one: MenuItem, twelve: MenuItem)
    requires one.id == 1 && twelve.id == 12
    ensures SelectorFind([twelve, one], 1) == Some(twelve)
    ensures FindSnapshot([twelve, one], 1) == Some(one)
  {
    assert Digits(1) == "1";
    assert Digits(12) == Digits(1) + "2";
    assert SelectorMatches(1, twelve);
    assert [twelve, one][1..] == [one];
    assert SnapshotIndex([one], 1) == Some(0);
    assert SnapshotIndex([twelve, one], 1) == Some(1);
  }
}
