/**
 * The scan results panel: which of its branches renders for the props it is
 * given, the text of each result card, and the manual search form whose submit
 * hands the trimmed query to the application's redirect handler.
 */
module Panel {
  import opened Wrappers
  import opened Seqs
  import opened Text
  import opened Types
  import opened Catalog
  import opened App

  /** What one result card shows, and the query its "Acquire Item" button sends. */
  datatype Card = Card(
    category: string,
    brand: Option<string>,
    name: string,
    description: string,
    tags: seq<string>,
    acquireQuery: string)

  /**
   * What the panel renders: the loading skeleton alone, or the header count, the
   * search box text, the analysed frame if any, the cards, and whether the
   * "Awaiting Visual Input" message shows.
   */
  datatype PanelView =
    | Skeleton
    | Shown(senseCount: nat, searchText: string, screenshot: Option<string>, cards: seq<Card>, emptyState: bool)

  /** The text of an attribute tag: `#` and the attribute with every whitespace character deleted. */
  function TagText(attr: string): (t: string)
    ensures |t| >= 1 && t[0] == '#'
    ensures NoWhitespace(t[1..]) && IsSubsequence(t[1..], attr)
  {
    assert ("#" + StripWhitespace(attr))[1..] == StripWhitespace(attr);
    "#" + StripWhitespace(attr)
  }

  /** A tag keeps every character of the attribute that is not whitespace, in order. */
  lemma TagOfSplitWords(a: string, b: string)
    requires NoWhitespace(a) && NoWhitespace(b)
    ensures TagText(a + " " + b) == "#" + a + b
  {
    StripWhitespaceConcat(a + " ", b);
    StripWhitespaceConcat(a, " ");
    StripWhitespaceIdentity(a);
    StripWhitespaceIdentity(b);
    assert StripWhitespace(" ") == [] by {
      assert " "[1..] == [];
    }
  }

  /** The card for one detected item. */
  function CardFor(item: DetectedItem): (c: Card)
    ensures c.category == item.category && c.name == item.name && c.description == item.description
    ensures c.brand.Some? <==> item.brand.Some? && item.brand.value != ""
    ensures c.brand.Some? ==> c.brand.value == item.brand.value
    ensures c.tags != [] <==> item.attributes.Some? && item.attributes.value != []
    ensures c.tags != [] ==>
      |c.tags| == |item.attributes.value| &&
      forall k :: 0 <= k < |c.tags| ==> c.tags[k] == TagText(item.attributes.value[k])
    ensures c.acquireQuery == item.name
  {
    var brand := if item.brand.Some? && item.brand.value != "" then item.brand else None;
    var tags := if item.attributes.Some? && item.attributes.value != []
                then seq(|item.attributes.value|, k requires 0 <= k < |item.attributes.value| =>
                       TagText(item.attributes.value[k]))
                else [];
    Card(item.category, brand, item.name, item.description, tags, item.name)
  }

  /** `items.map(...)`: one card per item, in the items' order. */
  function CardsFor(items: seq<DetectedItem>): (cs: seq<Card>)
    ensures |cs| == |items|
    ensures forall k :: 0 <= k < |items| ==> cs[k] == CardFor(items[k])
    decreases |items|
  {
    if items == [] then []
    else [CardFor(items[0])] + CardsFor(items[1..])
  }

  /** The panel for its props and the search box text. */
  function Render(items: seq<DetectedItem>, screenshot: Option<string>, isLoading: bool,
                  localSearch: string): (v: PanelView)
    ensures v.Skeleton? <==> isLoading
    ensures v.Shown? ==>
      && v.senseCount == |items|
      && v.searchText == localSearch
      && (v.screenshot.Some? <==> screenshot.Some? && screenshot.value != "")
      && (v.screenshot.Some? ==> v.screenshot.value == screenshot.value)
      && |v.cards| == |items|
      && (forall k :: 0 <= k < |items| ==> v.cards[k] == CardFor(items[k]))
      && (v.emptyState <==> items == [])
  {
    if isLoading then Skeleton
    else
      var shot := if screenshot.Some? && screenshot.value != "" then screenshot else None;
      Shown(|items|, localSearch, shot, CardsFor(items), items == [])
  }

  /**
   * The panel as the application drives it: while a scan runs only the skeleton
   * shows; a scan that failed shows no frame, no cards and the empty-state
   * message; a scan that succeeded shows its frame and one card per item.
   */
  lemma PanelAfterScan(s: AppView, items: seq<DetectedItem>, shot: string, localSearch: string)
    ensures Render(Apply(s, ScanStart).detectedItems, Apply(s, ScanStart).currentScreenshot,
                   Apply(s, ScanStart).isScanning, localSearch) == Skeleton
    ensures var s' := Apply(Apply(s, ScanStart), ScanComplete(items, shot));
      var v := Render(s'.detectedItems, s'.currentScreenshot, s'.isScanning, localSearch);
      && v.Shown?
      && (v.screenshot.Some? <==> shot != "")
      && |v.cards| == |items|
      && (v.emptyState <==> items == [])
  {
  }

  /** The panel component: its search box text and the application whose redirect is its search callback. */
  class ShoppingPanel {
    const app: AppState
    var localSearch: string
    /** The queries handed to `onManualSearch`, oldest first. */
    var searches: seq<string>

    constructor (app: AppState)
      ensures this.app == app && localSearch == "" && searches == []
    {
      this.app := app;
      localSearch := "";
      searches := [];
    }

    /** Typing in the search box. */
    method SetLocalSearch(text: string)
      modifies this
      ensures localSearch == text && searches == old(searches)
    {
      localSearch := text;
    }

    /**
     * `handleSearch`: a non-blank query is redirected to once, trimmed, and the box
     * is cleared; a blank one does nothing.
     */
    method HandleSearch()
      modifies this, app
      ensures var q := Trim(old(localSearch));
        if q != "" then
          && searches == old(searches) + [q]
          && localSearch == ""
          && app.Snapshot() == Apply(old(app.Snapshot()), Redirect(q))
        else
          && searches == old(searches)
          && localSearch == old(localSearch)
          && app.Snapshot() == old(app.Snapshot())
    {
      var query := Trim(localSearch);
      if query != "" {
        searches := searches + [query];
        var _ := app.PerformRedirection(query);
        localSearch := "";
      }
    }

    /** "Acquire Item" on the card of item `k`: its name is searched for as it is. */
    method ClickAcquire(k: nat)
      requires !app.isScanning && k < |app.detectedItems|
      modifies this, app
      ensures searches == old(searches) + [old(app.detectedItems)[k].name]
      ensures localSearch == old(localSearch)
      ensures app.Snapshot() == Apply(old(app.Snapshot()), Redirect(old(app.detectedItems)[k].name))
    {
      var query := app.detectedItems[k].name;
      searches := searches + [query];
      var _ := app.PerformRedirection(query);
    }
  }
}
