/**
  The documentation listing page (`internal/templates/docs/index/script.js`):
  a category pill and a search box decide which document cards are shown,
  and a "no results" panel replaces the grid when none is.
 */
module DocsFilter {
  import opened Results
  import opened JsText
  import DocsHandler

  /** The `style.display` values the script writes; `Unset` is the page as served. */
  datatype Display = Unset | Flex | Hidden | Block | Grid

  /** A `.doc-card` element: its `data-*` attributes and its display. */
  datatype Card = Card(id: string, category: string, title: string, description: string, tags: string, display: Display)

  /** A `.filter-pill` button: its `data-category` and whether it holds the `active` class. */
  datatype Pill = Pill(category: string, active: bool)

  /** The element a click inside the pill bar lands on. */
  datatype ClickTarget = FilterPill(index: nat) | OtherElement

  const AllCategories: string := "All"

  // ---------------------------------------------------------------------
  // The match predicate of filterDocuments

  predicate CategoryMatch(card: Card, selectedCategory: string)
  {
    selectedCategory == AllCategories || card.category == selectedCategory
  }

  /** `searchQuery` is already lowercased by the input listener. */
  predicate SearchMatch(card: Card, searchQuery: string)
  {
    || searchQuery == ""
    || Includes(ToLower(card.title), searchQuery)
    || Includes(ToLower(card.description), searchQuery)
    || Includes(ToLower(card.tags), searchQuery)
  }

  predicate Matches(card: Card, selectedCategory: string, searchQuery: string)
  {
    CategoryMatch(card, selectedCategory) && SearchMatch(card, searchQuery)
  }

  /** The card after one pass of the filter: shown as `flex` or hidden. */
  function Shown(card: Card, selectedCategory: string, searchQuery: string): (r: Card)
    ensures r.(display := card.display) == card
    ensures r.display == Flex <==> Matches(card, selectedCategory, searchQuery)
    ensures r.display in {Flex, Hidden}
  {
    card.(display := if Matches(card, selectedCategory, searchQuery) then Flex else Hidden)
  }

  /** Every card after the filter, in page order. */
  function Filtered(cards: seq<Card>, selectedCategory: string, searchQuery: string): seq<Card>
  {
    seq(|cards|, i requires 0 <= i < |cards| => Shown(cards[i], selectedCategory, searchQuery))
  }

  /** The number of cards displayed as `flex`. */
  function VisibleCount(cards: seq<Card>): nat
  {
    if cards == [] then 0
    else VisibleCount(cards[..|cards| - 1]) + (if cards[|cards| - 1].display == Flex then 1 else 0)
  }

  // ---------------------------------------------------------------------
  // Properties of the match and the count

  /** The count is the number of positions whose card is shown, so it never exceeds the number of cards. */
  lemma {:induction false} VisibleCountIsSize(cards: seq<Card>)
    ensures VisibleCount(cards) == |set i | 0 <= i < |cards| && cards[i].display == Flex|
    ensures VisibleCount(cards) <= |cards|
  {
    var shown := set i | 0 <= i < |cards| && cards[i].display == Flex;
    if cards == [] {
      assert shown == {};
    } else {
      var n := |cards| - 1;
      var init := cards[..n];
      VisibleCountIsSize(init);
      var shownInit := set i | 0 <= i < n && init[i].display == Flex;
      assert shownInit == set i | 0 <= i < n && cards[i].display == Flex;
      if cards[n].display == Flex {
        assert shown == shownInit + {n};
      } else {
        assert shown == shownInit;
      }
    }
  }

  /** The count is zero exactly when no card is shown. */
  lemma {:induction false} VisibleCountZero(cards: seq<Card>)
    ensures VisibleCount(cards) == 0 <==> forall i :: 0 <= i < |cards| ==> cards[i].display != Flex
  {
    VisibleCountIsSize(cards);
    var shown := set i | 0 <= i < |cards| && cards[i].display == Flex;
    if exists i :: 0 <= i < |cards| && cards[i].display == Flex {
      var i :| 0 <= i < |cards| && cards[i].display == Flex;
      assert i in shown;
    } else {
      assert shown == {};
    }
  }

  /** With every card shown the count is the number of cards. */
  lemma {:induction false} VisibleCountAllShown(cards: seq<Card>)
    requires forall i :: 0 <= i < |cards| ==> cards[i].display == Flex
    ensures VisibleCount(cards) == |cards|
  {
    if cards != [] {
      VisibleCountAllShown(cards[..|cards| - 1]);
    }
  }

  /** With `All` selected and an empty query (the initial state) every card matches. */
  lemma {:induction false} InitialStateMatchesAll(cards: seq<Card>)
    ensures forall i :: 0 <= i < |cards| ==> Filtered(cards, AllCategories, "")[i].display == Flex
    ensures VisibleCount(Filtered(cards, AllCategories, "")) == |cards|
  {
    VisibleCountAllShown(Filtered(cards, AllCategories, ""));
  }

  /** After the filter a card shows exactly when it matches: the match does not depend on the display. */
  lemma {:induction false} FilteredAgrees(cards: seq<Card>, selectedCategory: string, searchQuery: string)
    ensures var r := Filtered(cards, selectedCategory, searchQuery);
      forall i :: 0 <= i < |r| ==> (r[i].display == Flex <==> Matches(r[i], selectedCategory, searchQuery))
  {
    var r := Filtered(cards, selectedCategory, searchQuery);
    forall i | 0 <= i < |r| ensures r[i].display == Flex <==> Matches(r[i], selectedCategory, searchQuery) {
      assert Matches(r[i], selectedCategory, searchQuery) <==> Matches(cards[i], selectedCategory, searchQuery);
    }
  }

  /** Any selected category other than `All` matches exactly the cards of that category. */
  lemma {:induction false} CategoryMatchExact(card: Card, selectedCategory: string)
    requires selectedCategory != AllCategories
    ensures CategoryMatch(card, selectedCategory) <==> card.category == selectedCategory
  {
  }

  /**
    The search matches exactly when the query occurs in the lowercased title,
    description or tags; the empty query occurs everywhere, so its own test is
    only a shortcut.
   */
  lemma {:induction false} SearchMatchOccurs(card: Card, searchQuery: string)
    ensures SearchMatch(card, searchQuery) <==>
      (Occurs(ToLower(card.title), searchQuery) || Occurs(ToLower(card.description), searchQuery)
       || Occurs(ToLower(card.tags), searchQuery))
  {
    if searchQuery == "" {
      assert ToLower(card.title)[0..0] == searchQuery;
      assert OccursAt(ToLower(card.title), searchQuery, 0);
    }
  }

  /** The case of a card's title, description and tags does not change whether it matches. */
  lemma {:induction false} SearchIgnoresCardCase(card: Card, searchQuery: string)
    ensures SearchMatch(card, searchQuery) <==>
      SearchMatch(card.(title := ToLower(card.title), description := ToLower(card.description), tags := ToLower(card.tags)), searchQuery)
  {
    ToLowerIdempotent(card.title);
    ToLowerIdempotent(card.description);
    ToLowerIdempotent(card.tags);
  }

  /** Typing a value or its lowercase form into the search box selects the same cards. */
  lemma {:induction false} SearchIgnoresInputCase(cards: seq<Card>, selectedCategory: string, value: string)
    ensures Filtered(cards, selectedCategory, ToLower(ToLower(value))) == Filtered(cards, selectedCategory, ToLower(value))
  {
    ToLowerIdempotent(value);
  }

  /** Filtering twice with the same state shows the same cards as filtering once. */
  lemma {:induction false} FilteredIdempotent(cards: seq<Card>, selectedCategory: string, searchQuery: string)
    ensures var once := Filtered(cards, selectedCategory, searchQuery);
      Filtered(once, selectedCategory, searchQuery) == once
  {
    var once := Filtered(cards, selectedCategory, searchQuery);
    var twice := Filtered(once, selectedCategory, searchQuery);
    forall i | 0 <= i < |cards| ensures twice[i] == once[i] {
      assert Matches(once[i], selectedCategory, searchQuery) <==> Matches(cards[i], selectedCategory, searchQuery);
    }
  }

  // ---------------------------------------------------------------------
  // Navigation

  /** `viewDocument`: the page of a document. */
  function DocumentUrl(docId: string): (url: string)
    ensures DocsHandler.DocId(url) == docId
  {
    DocsHandler.DocIdOfDocumentPath(docId);
    DocsHandler.DocsPrefix + docId
  }

  /**
    The keydown listener of the grid: Enter or Space on (or inside) a card
    navigates to that card's document; anything else does nothing.
   */
  function KeyNavigation(key: string, card: Option<Card>): (target: Option<string>)
    ensures target.Some? <==> card.Some? && (key == "Enter" || key == " ")
    ensures target.Some? ==> DocsHandler.DocId(target.value) == card.value.id
  {
    match card
    case None => None
    case Some(c) => if key == "Enter" || key == " " then Some(DocumentUrl(c.id)) else None
  }

  // ---------------------------------------------------------------------
  // The page state and its listeners

  /** The `forEach` callback of `filterDocuments` for one card. */
  method FilterCard(card: Card, selectedCategory: string, searchQuery: string) returns (shown: Card, matched: bool)
    ensures matched <==> Matches(card, selectedCategory, searchQuery)
    ensures shown == Shown(card, selectedCategory, searchQuery)
    ensures matched <==> shown.display == Flex
  {
    var categoryMatch := CategoryMatch(card, selectedCategory);
    var searchMatch := SearchMatch(card, searchQuery);
    matched := categoryMatch && searchMatch;
    if matched {
      shown := card.(display := Flex);
    } else {
      shown := card.(display := Hidden);
    }
  }

  class DocsIndexPage {
    var selectedCategory: string
    var searchQuery: string
    const cards: array<Card>
    const pills: array<Pill>
    var noResultsDisplay: Display
    var gridDisplay: Display

    /** The no-results panel and the grid are shown exactly one at a time, by the number of shown cards. */
    ghost predicate PanelsAgree()
      reads this, cards
    {
      && (VisibleCount(cards[..]) == 0 ==> noResultsDisplay == Block && gridDisplay == Hidden)
      && (VisibleCount(cards[..]) != 0 ==> noResultsDisplay == Hidden && gridDisplay == Grid)
    }

    /** Every card shows exactly when it matches the current state. */
    ghost predicate CardsAgree()
      reads this, cards
    {
      forall i :: 0 <= i < cards.Length ==> (cards[i].display == Flex <==> Matches(cards[i], selectedCategory, searchQuery))
    }

    /** The script's top level: the initial state, then `filterDocuments()`. */
    constructor (cards: array<Card>, pills: array<Pill>)
      modifies cards
      ensures this.cards == cards && this.pills == pills
      ensures selectedCategory == AllCategories && searchQuery == ""
      ensures cards[..] == Filtered(old(cards[..]), AllCategories, "")
      ensures forall i :: 0 <= i < cards.Length ==> cards[i].display == Flex
      ensures noResultsDisplay == (if cards.Length == 0 then Block else Hidden)
      ensures gridDisplay == (if cards.Length == 0 then Hidden else Grid)
    {
      selectedCategory := AllCategories;
      searchQuery := "";
      this.cards := cards;
      this.pills := pills;
      noResultsDisplay := Unset;
      gridDisplay := Unset;
      new;
      InitialStateMatchesAll(cards[..]);
      var _ := FilterDocuments();
    }

    /** `filterDocuments`: shows the matching cards, counts them, and switches the panels. */
    method FilterDocuments() returns (visibleCount: nat)
      modifies cards, this`noResultsDisplay, this`gridDisplay
      ensures cards[..] == Filtered(old(cards[..]), selectedCategory, searchQuery)
      ensures visibleCount == VisibleCount(cards[..])
      ensures visibleCount == 0 ==> noResultsDisplay == Block && gridDisplay == Hidden
      ensures visibleCount != 0 ==> noResultsDisplay == Hidden && gridDisplay == Grid
      ensures PanelsAgree() && CardsAgree()
    {
      ghost var original := cards[..];
      visibleCount := 0;
      for i := 0 to cards.Length
        modifies cards
        invariant forall k :: 0 <= k < i ==> cards[k] == Shown(original[k], selectedCategory, searchQuery)
        invariant forall k :: i <= k < cards.Length ==> cards[k] == original[k]
        invariant visibleCount == VisibleCount(cards[..i])
      {
        var card := cards[i];
        var shown, matched := FilterCard(card, selectedCategory, searchQuery);
        cards[i] := shown;
        if matched {
          visibleCount := visibleCount + 1;
        }
        assert cards[..i + 1][..i] == cards[..i];
      }
      assert cards[..] == Filtered(original, selectedCategory, searchQuery);
      assert cards[..cards.Length] == cards[..];
      if visibleCount == 0 {
        noResultsDisplay := Block;
        gridDisplay := Hidden;
      } else {
        noResultsDisplay := Hidden;
        gridDisplay := Grid;
      }
      FilteredAgrees(original, selectedCategory, searchQuery);
    }

    /**
      The click listener of the pill bar: a click on a pill makes it the only
      active pill, selects its category and filters; any other click does nothing.
     */
    method OnCategoryClick(target: ClickTarget)
      requires target.FilterPill? ==> target.index < pills.Length
      modifies pills, cards, this`selectedCategory, this`noResultsDisplay, this`gridDisplay
      ensures target.OtherElement? ==>
        && pills[..] == old(pills[..]) && cards[..] == old(cards[..])
        && selectedCategory == old(selectedCategory)
        && noResultsDisplay == old(noResultsDisplay) && gridDisplay == old(gridDisplay)
      ensures target.FilterPill? ==>
        && |pills[..]| == |old(pills[..])|
        && (forall j :: 0 <= j < pills.Length ==> pills[j] == old(pills[j]).(active := j == target.index))
        && selectedCategory == old(pills[target.index]).category
        && cards[..] == Filtered(old(cards[..]), selectedCategory, searchQuery)
        && PanelsAgree() && CardsAgree()
      ensures searchQuery == old(searchQuery)
    {
      if target.OtherElement? {
        return;
      }
      for j := 0 to pills.Length
        modifies pills
        invariant forall k :: 0 <= k < j ==> pills[k] == old(pills[k]).(active := false)
        invariant forall k :: j <= k < pills.Length ==> pills[k] == old(pills[k])
      {
        pills[j] := pills[j].(active := false);
      }
      pills[target.index] := pills[target.index].(active := true);
      selectedCategory := pills[target.index].category;
      assert cards[..] == old(cards[..]);
      var _ := FilterDocuments();
    }

    /** The input listener of the search box: the lowercased value becomes the query, then the filter runs. */
    method OnSearchInput(value: string)
      modifies cards, this`searchQuery, this`noResultsDisplay, this`gridDisplay
      ensures searchQuery == ToLower(value) && selectedCategory == old(selectedCategory)
      ensures cards[..] == Filtered(old(cards[..]), selectedCategory, searchQuery)
      ensures PanelsAgree() && CardsAgree()
    {
      searchQuery := ToLower(value);
      var _ := FilterDocuments();
    }
  }
}
