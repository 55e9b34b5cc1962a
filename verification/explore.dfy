/** The Explore screen: a list of sections (header, search bar, merchants, products), a
    web view opened by a search or a merchant, the Android back button, and the PiePay
    sheet raised when the web view lands on a Flipkart product page. Each handler is a
    function from the old screen state to the new one. */
module Explore {
  import opened Strings
  import opened PriceServer
  import opened CategoryGrid
  import opened DealSheet

  datatype Product = Product(id: int, title: string, imageUrl: string, price: int, productPageUrl: string)

  datatype Merchant = Merchant(id: string, name: string, logoUrl: string, websiteUrl: string,
                               categories: seq<Category>)

  /** The screen's state hooks. `webUri` is null until something opens the web view. */
  datatype Screen = Screen(searchQuery: string, products: seq<Product>, webUri: Option<string>,
                           currentUrl: string, showPiePaySheet: bool)

  /** JavaScript truthiness of the `webUri` state: null and "" are falsy. */
  function WebUriSet(s: Screen): (b: bool)
    ensures b <==> Truthy(if s.webUri.Some? then Str(s.webUri.value) else Null)
  {
    s.webUri.Some? && s.webUri.value != ""
  }

  /* ------------------------------ mock data ------------------------------ */

  const MockProducts: seq<Product> := [
    Product(1, "iPhone 14", "https://m.media-amazon.com/images/I/61BGE6iu4AL._AC_UY218_.jpg", 79999,
            "https://www.flipkart.com/apple-iphone-14-starlight-128-gb/p/itm3485a56f6e676?pid=MOBGHWFHABH3G73H"),
    Product(2, "Nike Sneakers",
            "https://static.nike.com/a/images/t_PDP_936_v1/f_auto,q_auto:eco/44f222ab-96b6-43b9-82e7-9a1bd888611d/NIKE+COURT+VISION+LO.png",
            4599,
            "https://www.flipkart.com/nike-blazer-low-platform-sneakers-women/p/itm23e5c1871e94d?pid=SHOGTHZ23WDFHHYM"),
    Product(3, "Dell Laptop", "https://5.imimg.com/data5/ND/GA/MY-44419499/dell-mini-laptop.jpg", 55999,
            "https://www.flipkart.com/dell-latitude-3440-2024-intel-core-i3-12th-gen-1215u-8-gb-512-gb-ssd-windows-11-pro-business-laptop/p/itm7f265faf0871e?pid=COMH5G3F8BGPNY9N"),
    Product(3, "Wrist Watch",
            "https://www.vaerwatches.com/cdn/shop/files/38-wristWrist-Shot-Lime.jpg?v=1712715073&width=600", 2499,
            "https://www.flipkart.com/lorenz-mk-4087r-date-dial-analog-watch-blue-magnetic-lock-strap-men/p/itm50682d1116646?pid=WATGZDGQF8GYFA5Y")
  ]

  const MockMerchants: seq<Merchant> := [
    Merchant("flipkart", "Flipkart",
      "https://www.google.com/url?sa=i&url=https%3A%2F%2Fin.pinterest.com%2Fpin%2Fflipkart-logo-png-images--850547079633661907%2F&psig=AOvVaw08MSXC-TTcdes9F2TB-q1D&ust=1753611827273000&source=images&cd=vfe&opi=89978449&ved=0CBUQjRxqFwoTCIDijaKn2o4DFQAAAAAdAAAAABAE",
      "https://www.flipkart.com",
      [
        Category("Mobiles", "https://img.icons8.com/fluency/96/000000/iphone-x1.png",
                 Some("https://www.flipkart.com/mobile-phones-store")),
        Category("Fashion",
                 "https://photo-cdn2.icons8.com/5-TM0TBn2MG_IrbA7Pn5I9ZbCV2t8i-WmyZNh6m3nKE/rs:fit:576:385/czM6Ly9pY29uczgu/bW9vc2UtcHJvZC5h/c3NldHMvYXNzZXRz/L3NhdGEvb3JpZ2lu/YWwvNzkzLzhhMTIw/Mjg5LWIyMmItNGI1/Yy05ZWQzLWZlZDVh/YzE0MDRjZC5qcGc.webp",
                 Some("https://www.flipkart.com/clothing/pr?sid=2oq")),
        Category("Electronics", "https://img.icons8.com/fluency/96/000000/laptop.png",
                 Some("https://www.flipkart.com/flipkart-electronics-new-store")),
        Category("Home", "https://img.icons8.com/fluency/96/000000/sofa.png",
                 Some("https://www.flipkart.com/furniture-store")),
        Category("Beauty",
                 "https://photo-cdn2.icons8.com/4vvSfsIqLqnZk9FRQx-5gU4hNZ8PMElu0ufJB63oEQY/rs:fit:576:385/czM6Ly9pY29uczgu/bW9vc2UtcHJvZC5h/c3NldHMvYXNzZXRz/L3NhdGEvb3JpZ2lu/YWwvNDMyL2MwZDhi/NWI5LTFmZmItNGNh/Yy05YTg0LTY3NGRi/ZjQxZTFkYS5qcGc.webp",
                 Some("https://www.flipkart.com/beauty-and-personal-care/pr?sid=t06")),
        Category("Toys", "https://img.icons8.com/fluency/96/000000/teddy-bear.png",
                 Some("https://www.flipkart.com/toys-online-store"))
      ])
  ]

  /** The state the screen mounts with */
  const InitialScreen: Screen := Screen("", MockProducts, None, "", false)

  /* --------------------------- removing products -------------------------- */

  /** `p.id !== id`: strict inequality, so an id that is not a number never matches. */
  function Differs(p: Product, id: JsValue): (b: bool)
    ensures !id.Num? ==> b
    ensures id.Num? ==> (b <==> id.n != p.id)
  {
    id != Num(p.id)
  }

  /** `prevProducts.filter(p => p.id !== id)` */
  function Without(products: seq<Product>, id: JsValue): (r: seq<Product>)
    ensures |r| <= |products|
    ensures forall k :: 0 <= k < |r| ==> Differs(r[k], id)
    ensures forall p :: p in r <==> p in products && Differs(p, id)
  {
    if products == [] then []
    else if Differs(products[0], id) then [products[0]] + Without(products[1..], id)
    else Without(products[1..], id)
  }

  /** Filtering a concatenation filters each part, so the kept products stay in their order. */
  lemma {:induction false} WithoutAppend(a: seq<Product>, b: seq<Product>, id: JsValue)
    ensures Without(a + b, id) == Without(a, id) + Without(b, id)
  {
    if a == [] {
      assert a + b == b;
    } else {
      assert (a + b)[1..] == a[1..] + b;
      WithoutAppend(a[1..], b, id);
    }
  }

  /** An id no product carries removes nothing. */
  lemma {:induction false} WithoutAbsent(products: seq<Product>, id: JsValue)
    requires forall k :: 0 <= k < |products| ==> Differs(products[k], id)
    ensures Without(products, id) == products
  {
    if products != [] {
      WithoutAbsent(products[1..], id);
    }
  }

  /** Removing the same id twice is removing it once. */
  lemma WithoutIdempotent(products: seq<Product>, id: JsValue)
    ensures Without(Without(products, id), id) == Without(products, id)
  {
    WithoutAbsent(Without(products, id), id);
  }

  /** An id that is not a number (say the string "3") removes nothing. */
  lemma NonNumericIdRemovesNothing(products: seq<Product>, id: JsValue)
    requires !id.Num?
    ensures Without(products, id) == products
  {
    WithoutAbsent(products, id);
  }

  /** `handleRemoveProduct(id)`: only the product list changes. */
  function RemoveProduct(s: Screen, id: JsValue): (r: Screen)
    ensures r.products == Without(s.products, id)
    ensures r == s.(products := r.products)
  {
    s.(products := Without(s.products, id))
  }

  /** Two mock products share id 3, so removing id 3 drops both the laptop and the watch. */
  lemma RemovingThreeDropsTwo()
    ensures Without(MockProducts, Num(3)) == MockProducts[..2]
    ensures |RemoveProduct(InitialScreen, Num(3)).products| == 2
  {
    var a, b := MockProducts[..2], MockProducts[2..];
    assert MockProducts == a + b;
    WithoutAppend(a, b, Num(3));
    WithoutAbsent(a, Num(3));
    assert Without(b, Num(3)) == [];
  }

  /* ------------------------------ web view ------------------------------- */

  const SearchUrlPrefix: string := "https://www.flipkart.com/search?q="

  /** `onSubmitSearch`: opens the Flipkart search for the query, unescaped, and clears the box. */
  function SubmitSearch(s: Screen): (r: Screen)
    ensures r.webUri.Some? && |r.webUri.value| == |SearchUrlPrefix| + |s.searchQuery|
    ensures r.webUri.value[..|SearchUrlPrefix|] == SearchUrlPrefix
    ensures r.webUri.value[|SearchUrlPrefix|..] == s.searchQuery
    ensures r.searchQuery == "" && WebUriSet(r)
    ensures r.products == s.products && r.currentUrl == s.currentUrl && r.showPiePaySheet == s.showPiePaySheet
  {
    var url := SearchUrlPrefix + s.searchQuery;
    assert url[..|SearchUrlPrefix|] == SearchUrlPrefix && url[|SearchUrlPrefix|..] == s.searchQuery;
    s.(webUri := Some(url), searchQuery := "")
  }

  /** `handleMerchantPress`: opens the Flipkart home page. */
  function MerchantPress(s: Screen): (r: Screen)
    ensures WebUriSet(r) && r == s.(webUri := Some("https://www.flipkart.com"))
  {
    s.(webUri := Some("https://www.flipkart.com"))
  }

  /** The web view's close button */
  function CloseWebView(s: Screen): (r: Screen)
    ensures !WebUriSet(r) && r == s.(webUri := None)
  {
    s.(webUri := None)
  }

  /** What the back-button listener returns (`true`: the press was handled here) and the
      state it leaves. */
  datatype BackResult = BackResult(handled: bool, screen: Screen)

  /** The hardware back button: with a web view open it closes it and consumes the press;
      otherwise it lets the system handle the press and changes nothing. */
  function BackPress(s: Screen): (r: BackResult)
    ensures r.handled <==> WebUriSet(s)
    ensures r.handled ==> r.screen == CloseWebView(s)
    ensures !r.handled ==> r.screen == s
    ensures !WebUriSet(r.screen)
  {
    if WebUriSet(s) then BackResult(true, s.(webUri := None)) else BackResult(false, s)
  }

  /** Back after a search closes the search page and is consumed; a second back goes on to
      the system. */
  lemma BackAfterSearch(s: Screen)
    ensures BackPress(SubmitSearch(s)).handled
    ensures BackPress(SubmitSearch(s)).screen.searchQuery == ""
    ensures !BackPress(BackPress(SubmitSearch(s)).screen).handled
  {
  }

  /* ------------------------- navigation and sheet ------------------------- */

  /** `onNavigationStateChange`: remember the URL and raise the sheet exactly on product
      pages, using the screen's own copy of the product-page test. */
  function NavigationChange(s: Screen, url: string): (r: Screen)
    ensures r.currentUrl == url
    ensures r.showPiePaySheet <==> Includes(url, "flipkart.com") && Includes(url, "/p/")
    ensures r == s.(currentUrl := url, showPiePaySheet := r.showPiePaySheet)
  {
    var isProductPage := Includes(url, "flipkart.com") && Includes(url, "/p/");
    s.(currentUrl := url, showPiePaySheet := isProductPage)
  }

  /** The sheet's `onClose` */
  function CloseSheet(s: Screen): (r: Screen)
    ensures !r.showPiePaySheet && r == s.(showPiePaySheet := false)
  {
    s.(showPiePaySheet := false)
  }

  /** The screen's test and the sheet's agree, so after any navigation the sheet draws
      something exactly when the screen raised it: it is never raised only to draw nothing. */
  lemma RaisedSheetAlwaysDraws(s: Screen, url: string, loading: bool, data: Option<Payload>, count: nat)
    ensures var r := NavigationChange(s, url);
            r.showPiePaySheet <==> !Render(r.showPiePaySheet, r.currentUrl, loading, data, count).Hidden?
    ensures NavigationChange(s, url).showPiePaySheet <==> IsProductPage(url)
  {
  }

  /** Closing the sheet hides it whatever page the web view is on. */
  lemma ClosedSheetIsHidden(s: Screen, loading: bool, data: Option<Payload>, count: nat)
    ensures Render(CloseSheet(s).showPiePaySheet, CloseSheet(s).currentUrl, loading, data, count) == Hidden
  {
  }

  /* ------------------------------- the list ------------------------------- */

  /** An entry of the screen's FlatList: its type, its key, and a merchant for merchant rows */
  datatype ListItem = ListItem(kind: string, key: string, merchant: Option<Merchant>)

  function MerchantItems(ms: seq<Merchant>): (r: seq<ListItem>)
    ensures |r| == |ms|
    ensures forall i :: 0 <= i < |ms| ==> r[i] == ListItem("merchant", ms[i].id, Some(ms[i]))
  {
    if ms == [] then [] else [ListItem("merchant", ms[0].id, Some(ms[0]))] + MerchantItems(ms[1..])
  }

  /** `listData`: header, search, one row per merchant keyed by its id, then products. */
  function ListData(ms: seq<Merchant>): (r: seq<ListItem>)
    ensures |r| == |ms| + 3
    ensures r[0] == ListItem("header", "header", None) && r[1] == ListItem("search", "search", None)
    ensures r[|r| - 1] == ListItem("products", "products", None)
    ensures forall i :: 0 <= i < |ms| ==> r[i + 2] == ListItem("merchant", ms[i].id, Some(ms[i]))
  {
    [ListItem("header", "header", None), ListItem("search", "search", None)]
      + MerchantItems(ms) + [ListItem("products", "products", None)]
  }

  predicate DistinctKeys(items: seq<ListItem>) {
    forall i, j :: 0 <= i < j < |items| ==> items[i].key != items[j].key
  }

  /** The list's keys are unique (as the list requires) when merchant ids are unique and none
      of them is one of the three fixed keys. */
  lemma ListKeysDistinct(ms: seq<Merchant>)
    requires forall i, j :: 0 <= i < j < |ms| ==> ms[i].id != ms[j].id
    requires forall i :: 0 <= i < |ms| ==> ms[i].id != "header" && ms[i].id != "search" && ms[i].id != "products"
    ensures DistinctKeys(ListData(ms))
  {
    var r := ListData(ms);
    forall i, j | 0 <= i < j < |r| ensures r[i].key != r[j].key {
      if 2 <= i && j < |r| - 1 {
        assert r[i].key == ms[i - 2].id && r[j].key == ms[j - 2].id;
      }
    }
  }

  /** What a list row draws */
  datatype Row = HeaderSection | SearchBar(value: string) | LatestPurchases(products: seq<Product>) | Nothing

  /** `renderItem`: the merchant row draws the latest purchases (not the merchant), and the
      products row, like any unknown type, draws nothing. */
  function RenderItem(item: ListItem, s: Screen): (r: Row)
    ensures r.Nothing? <==> item.kind != "header" && item.kind != "search" && item.kind != "merchant"
    ensures r.SearchBar? ==> r.value == s.searchQuery
    ensures r.LatestPurchases? ==> r.products == s.products
    ensures item.kind == "header" ==> r == HeaderSection
    ensures item.kind == "search" ==> r == SearchBar(s.searchQuery)
    ensures item.kind == "merchant" ==> r == LatestPurchases(s.products)
  {
    match item.kind
    case "header" => HeaderSection
    case "search" => SearchBar(s.searchQuery)
    case "merchant" => LatestPurchases(s.products)
    case _ => Nothing
  }

  function RenderList(items: seq<ListItem>, s: Screen): (r: seq<Row>)
    ensures |r| == |items|
    ensures forall i :: 0 <= i < |items| ==> r[i] == RenderItem(items[i], s)
  {
    if items == [] then [] else [RenderItem(items[0], s)] + RenderList(items[1..], s)
  }

  /** With the one mock merchant the screen draws the header, the search box with the current
      query, the latest purchases once, and nothing for the products row. */
  lemma ScreenRows(s: Screen)
    ensures RenderList(ListData(MockMerchants), s)
            == [HeaderSection, SearchBar(s.searchQuery), LatestPurchases(s.products), Nothing]
  {
    var items := ListData(MockMerchants);
    var r := RenderList(items, s);
    assert items[2].kind == "merchant" && items[3].kind == "products";
  }

  /** The mock merchant's six categories plus "More" fit the collapsed grid: no toggle. */
  lemma MockMerchantHasNoToggle()
    ensures !ShowToggle(SafeCategories(MockMerchants[0].categories))
    ensures Visible(SafeCategories(MockMerchants[0].categories), false)
            == MockMerchants[0].categories + [MoreTile]
  {
    CollapsedShowsMoreOnlyWhenFew(MockMerchants[0].categories);
  }
}
