/** The category grid of a merchant tile: the categories plus a "More" tile, cut to seven
    unless expanded, laid out four to a row, with a "View more / View less" toggle and a
    fallback picture for images that fail to load. */
module CategoryGrid {
  import opened Strings

  /** A category as the merchant data lists it; the "More" tile has no product page. */
  datatype Category = Category(title: string, imageUrl: string, productPageUrl: Option<string>)

  const MoreTile: Category := Category("More", "https://img.icons8.com/color/96/000000/more.png", None)

  const ItemsPerRow: nat := 4

  /** How many items the collapsed grid keeps */
  const CollapsedItems: nat := 7

  /* --------------------------- the tile list ---------------------------- */

  /** `safeCategories`: a copy of the categories with "More" pushed onto the end, unless
      there are none. The merchant's own list is a value here and is never changed. */
  function SafeCategories(categories: seq<Category>): (r: seq<Category>)
    ensures categories == [] ==> r == []
    ensures categories != [] ==> |r| == |categories| + 1 && r[|r| - 1] == MoreTile
    ensures categories <= r
  {
    var cats := categories;
    if |cats| > 0 then cats + [MoreTile] else cats
  }

  /** `visibleCategories`: everything when expanded, the first seven otherwise */
  function Visible(safe: seq<Category>, expanded: bool): (r: seq<Category>)
    ensures r <= safe
    ensures expanded ==> |r| == |safe|
    ensures !expanded ==> |r| == if |safe| < CollapsedItems then |safe| else CollapsedItems
  {
    if expanded then safe
    else if |safe| < CollapsedItems then safe
    else safe[..CollapsedItems]
  }

  /** Collapsed, the grid shows every category and "More" when there are fewer than seven
      categories; from seven on it shows the first seven categories and the "More" tile
      it appended is cut off. */
  lemma CollapsedShowsMoreOnlyWhenFew(categories: seq<Category>)
    ensures 0 < |categories| < CollapsedItems ==>
              Visible(SafeCategories(categories), false) == categories + [MoreTile]
    ensures |categories| >= CollapsedItems ==>
              Visible(SafeCategories(categories), false) == categories[..CollapsedItems]
  {
    var safe := SafeCategories(categories);
    if |categories| >= CollapsedItems {
      assert safe[..CollapsedItems] == categories[..CollapsedItems];
    }
  }

  /* ------------------------------- rows --------------------------------- */

  /** The rows laid end to end */
  function Flatten(rows: seq<seq<Category>>): seq<Category>
  {
    if rows == [] then [] else Flatten(rows[..|rows| - 1]) + rows[|rows| - 1]
  }

  lemma FlattenPush(rows: seq<seq<Category>>, row: seq<Category>)
    ensures Flatten(rows + [row]) == Flatten(rows) + row
  {
    assert (rows + [row])[..|rows|] == rows;
  }

  /** The shape of the grid: no empty row, at most four to a row, and only the last row
      may be short. */
  predicate WellShaped(rows: seq<seq<Category>>) {
    (forall k :: 0 <= k < |rows| ==> 0 < |rows[k]| <= ItemsPerRow)
    && (forall k :: 0 <= k < |rows| - 1 ==> |rows[k]| == ItemsPerRow)
  }

  /** The `for` loop that pushes `visibleCategories.slice(i, i + 4)` for i = 0, 4, 8, … */
  method Rows(visible: seq<Category>) returns (rows: seq<seq<Category>>)
    ensures Flatten(rows) == visible
    ensures WellShaped(rows)
    ensures |rows| == (|visible| + ItemsPerRow - 1) / ItemsPerRow
  {
    rows := [];
    var i := 0;
    while i < |visible|
      invariant i == ItemsPerRow * |rows|
      invariant i <= |visible| ==> Flatten(rows) == visible[..i]
      invariant i > |visible| ==> Flatten(rows) == visible && i < |visible| + ItemsPerRow
      invariant forall k :: 0 <= k < |rows| ==> 0 < |rows[k]| <= ItemsPerRow
      invariant i <= |visible| ==> forall k :: 0 <= k < |rows| ==> |rows[k]| == ItemsPerRow
      invariant forall k :: 0 <= k < |rows| - 1 ==> |rows[k]| == ItemsPerRow
    {
      // `slice` clamps its end to the length.
      var end := if i + ItemsPerRow <= |visible| then i + ItemsPerRow else |visible|;
      FlattenPush(rows, visible[i..end]);
      assert visible[..i] + visible[i..end] == visible[..end];
      rows := rows + [visible[i..end]];
      i := i + ItemsPerRow;
    }
    assert i >= |visible|;
  }

  /** The grid of a tile: its tile list, cut unless expanded, and laid out in rows.
      Collapsed it never takes more than the two rows the tile is meant to show. */
  method Grid(categories: seq<Category>, expanded: bool) returns (rows: seq<seq<Category>>)
    ensures Flatten(rows) == Visible(SafeCategories(categories), expanded)
    ensures WellShaped(rows)
    ensures !expanded ==> |rows| <= 2
    ensures expanded ==> |rows| == (|SafeCategories(categories)| + ItemsPerRow - 1) / ItemsPerRow
  {
    var safe := SafeCategories(categories);
    var visible := Visible(safe, expanded);
    rows := Rows(visible);
  }

  /* ------------------------------ toggle -------------------------------- */

  /** The "View more / View less" button is drawn when the tile list is longer than seven,
      which is exactly when the collapsed grid hides part of it. */
  function ShowToggle(safe: seq<Category>): (shown: bool)
    ensures shown <==> Visible(safe, false) != safe
  {
    |safe| > CollapsedItems
  }

  /** The toggle appears exactly when the merchant has seven or more categories, and when
      it is hidden, expanding would change nothing on screen. */
  lemma ToggleShownIffSeven(categories: seq<Category>)
    ensures ShowToggle(SafeCategories(categories)) <==> |categories| >= CollapsedItems
    ensures !ShowToggle(SafeCategories(categories)) ==>
              Visible(SafeCategories(categories), true) == Visible(SafeCategories(categories), false)
  {
  }

  /** `handleToggle`: flips between collapsed and expanded */
  function HandleToggle(expanded: bool): (r: bool)
    ensures r != expanded
  {
    !expanded
  }

  /** The button's label and the grid it switches to: collapsed it offers "View more",
      and pressing it shows the whole list. */
  function ToggleLabel(expanded: bool): (text: string)
    ensures text == "View more" <==> !expanded
    ensures expanded ==> text == "View less"
  {
    if expanded then "View less" else "View more"
  }

  lemma ToggleRestoresFullList(safe: seq<Category>, expanded: bool)
    requires ShowToggle(safe)
    ensures |Visible(safe, HandleToggle(expanded))| != |Visible(safe, expanded)|
    ensures Visible(safe, HandleToggle(HandleToggle(expanded))) == Visible(safe, expanded)
  {
  }

  /* --------------------------- fallback images --------------------------- */

  const FlipkartLogo: string := "https://logos-world.net/wp-content/uploads/2020/11/Flipkart-Logo.png"

  const FallbackImages: map<string, string> := map[
    "flipkart" := FlipkartLogo,
    "mobiles" := "https://img.icons8.com/color/96/smartphone.png",
    "fashion" := "https://img.icons8.com/color/96/clothes.png",
    "electronics" := "https://img.icons8.com/color/96/laptop.png",
    "home" := "https://img.icons8.com/color/96/home.png",
    "beauty" := "https://img.icons8.com/color/96/cosmetics.png",
    "toys" := "https://img.icons8.com/color/96/teddy-bear.png"
  ]

  /** `FALLBACK_IMAGES[fallbackKey] || FALLBACK_IMAGES.flipkart`: every listed image is a
      non-empty (truthy) string, so the `||` only steps in for a missing key. */
  function FallbackImage(key: string): (uri: string)
    ensures key in FallbackImages ==> uri == FallbackImages[key]
    ensures key !in FallbackImages ==> uri == FlipkartLogo
    ensures uri in FallbackImages.Values && uri != ""
  {
    if key in FallbackImages && FallbackImages[key] != "" then FallbackImages[key]
    else FallbackImages["flipkart"]
  }

  /** A category's image falls back by its lower-cased title. */
  function CategoryFallback(c: Category): (uri: string)
    ensures uri in FallbackImages.Values
    ensures LowerAscii(c.title) in FallbackImages ==> uri == FallbackImages[LowerAscii(c.title)]
    ensures LowerAscii(c.title) !in FallbackImages ==> uri == FlipkartLogo
  {
    FallbackImage(LowerAscii(c.title))
  }

  /** A "Fashion" category falls back to the clothes icon. */
  lemma FashionFallsBackToClothes()
    ensures CategoryFallback(Category("Fashion", "", None)) == "https://img.icons8.com/color/96/clothes.png"
  {
    assert LowerAscii("Fashion") == "fashion";
  }

  /** The "More" tile has no entry of its own and falls back to the Flipkart logo. */
  lemma MoreFallsBackToLogo()
    ensures CategoryFallback(MoreTile) == FlipkartLogo
  {
    assert LowerAscii("More") == "more";
  }
}
