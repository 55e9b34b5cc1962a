# PiePay deal sheet — a Dafny model

PiePay is a small React Native shopping demo with an Express mock backend. The Explore
screen lists merchants and recent purchases, and it opens Flipkart pages in a web view.
When the web view lands on a Flipkart product page, a bottom sheet slides up. The sheet
derives a product key from the URL and posts a mock "Wow-Deal" price for it. It then asks
the backend for a display payload: the reference price of ₹85,000, the deal price and the
saving in percent. It shows that payload under a two-minute countdown, and falls back to a
locally built payload when the backend cannot be reached.

This project models that logic and proves properties of it:

- `strings.dfy` (module `Strings`): the JavaScript string operations the app relies on.
  These are `includes`, `trim`, the `\s` class, ASCII `toLowerCase`, digit values and
  `toString` of a natural number.
- `price_server.dfy` (module `PriceServer`, from `backend/server.js`):
  - the in-memory price store, as the class `PriceStore` with a `map` field; POST overwrites
    a key and GET is a read-only function of the store;
  - the payload derivation, including the exact stripping regex, `parseInt` (whitespace,
    sign, `0x` prefix, longest digit prefix, NaN) and `Math.round` computed exactly over
    integers.
- `deal_sheet.dfy` (module `DealSheet`, from `src/components/bottomSheet.tsx`):
  - `isProductPage` and `getApiTitle`; the regex match is modelled as a leftmost scan and
    proved equal to the regex's meaning;
  - the countdown updater as a small state machine, and the `m:ss` timer label;
  - the offline fallback payload, the `fetchDeal` round trip against the store, and the
    render decision.
- `category_grid.dfy` (module `CategoryGrid`, from `src/components/EcomTile.tsx`): the tile
  list with its appended "More" tile, the collapsed slice, the row-chunking loop (a method
  with loop invariants), the toggle and the fallback-image lookup.
- `explore.dfy` (module `Explore`, from `src/screens/ExploreScreen.tsx`): the screen's state
  as a datatype, and each handler as a function from the old state to the new one. The
  handlers are product removal, search, merchant press, back button, navigation, and the
  closing of the sheet and the web view. The list sections and their rendering are
  modelled too.

The stripping regex in `backend/server.js:36` is `[â‚¹,]`. Its first three characters are
U+00E2, U+201A and U+00B9: the rupee sign's UTF-8 bytes read as Windows-1252. The rupee
sign U+20B9 that the app sends is not in the class. The model strips exactly the characters
the code names and nothing else, so the rupee sign survives stripping and the
app's own mock price "₹75,999" parses to NaN on the server
(`PriceServer.RupeePriceGivesNaN`), while a price without the sign parses
(`PriceServer.PlainPriceSavesEleven`).

## Model

| member | source | states |
|---|---|---|
| Strings.ToLowerAscii | src/components/bottomSheet.tsx:50 | an ASCII capital becomes the lower-case letter at the same alphabet position; every other character is kept |
| Strings.LowerAscii | src/components/bottomSheet.tsx:50 | `toLowerCase` keeps the length and lowers each character in place |
| Strings.LowerAsciiNoUpper | src/components/bottomSheet.tsx:50 | a string without ASCII capitals is its own lower case |
| Strings.IncludesFrom | src/components/bottomSheet.tsx:38-39 | the scan from `k` answers true exactly when `t` occurs at some index at or after `k` |
| Strings.Includes | src/components/bottomSheet.tsx:38-39 | `s.includes(t)` holds exactly when `t` occurs somewhere in `s` |
| Strings.TrimStart | src/components/bottomSheet.tsx:48 | the result is a suffix of the input; everything dropped is whitespace; the result does not start with whitespace |
| Strings.TrimStartNoSpace | src/components/bottomSheet.tsx:48 | a string that does not start with whitespace is left as it is |
| Strings.TrimStartSpaces | src/components/bottomSheet.tsx:48-49 | leading whitespace in front of text that does not start with whitespace is dropped whole |
| Strings.TrimStartAppend | src/components/bottomSheet.tsx:48-49 | dropping leading whitespace from `a + b`, where `a` ends in a non-space, touches only `a` |
| Strings.TrimEnd | src/components/bottomSheet.tsx:48 | the result is a prefix of the input; everything dropped is whitespace; the result does not end with whitespace |
| Strings.RadixDigit | backend/server.js:36 | a character's digit value is below 10 exactly for '0'..'9', and at most 36 |
| Strings.DigitChar | src/components/bottomSheet.tsx:141 | the character written for a digit reads back as that digit |
| Strings.DecimalString | src/components/bottomSheet.tsx:141 | `toString` writes digits only, with no leading zero, and they read back as the number; one digit exactly below 10 |
| Strings.LeadingZero | src/components/bottomSheet.tsx:141 | a padding '0' in front does not change the value read |
| PriceServer.Truthy | backend/server.js:31-34 | a value is truthy exactly when it is none of undefined, null, false, 0 and "" |
| PriceServer.PropertyKey | backend/server.js:14-16 | a string title is its own key; a number is keyed by its decimal digits |
| PriceServer.PropertyKeyOfNumber | backend/server.js:14-16 | a number title's key is digits that `parseInt` reads back as the number |
| PriceServer.NumberKeysDistinct | backend/server.js:14-16 | two different number titles never share a record |
| PriceServer.StripCurrency | backend/server.js:36 | no character of the class `[â‚¹,]` survives and the string does not grow; a single class character is deleted and any other single character is kept |
| PriceServer.StripCurrencyKeepsOthers | backend/server.js:36 | a string without class characters is returned whole |
| PriceServer.StripCurrencyAppend | backend/server.js:36 | stripping distributes over concatenation |
| PriceServer.DigitPrefix | backend/server.js:36 | the prefix `parseInt` reads is all digits of the radix and is followed by a non-digit or the end |
| PriceServer.ParseMagnitude | backend/server.js:36 | a magnitude is read only from text that starts with a digit, and always is unless the text starts with a `0x`/`0X` prefix |
| PriceServer.ParseInt | backend/server.js:36 | blank text is NaN; a negative result needs a leading '-' after the whitespace; a number is read only from text that holds a digit |
| PriceServer.ParseMagnitudeDigits | backend/server.js:36 | a digit run followed by a non-digit reads as the run's value (unless it forms a `0x` prefix) |
| PriceServer.ParseIntUnsigned | backend/server.js:36 | without leading whitespace or sign, `parseInt` is the magnitude, or NaN when there are no digits |
| PriceServer.ParseIntSkipsSpace | backend/server.js:36 | a leading whitespace character does not change what `parseInt` reads |
| PriceServer.ParseIntPlus | backend/server.js:36 | a '+' in front of unsigned text does not change what `parseInt` reads |
| PriceServer.ParseIntMinus | backend/server.js:36 | a leading '-' negates the magnitude and keeps NaN |
| PriceServer.ParseIntDigits | backend/server.js:36 | `parseInt` of digits then other text is the digits' value |
| PriceServer.ParseIntNegativeDigits | backend/server.js:36 | `parseInt` of '-', digits, then other text is minus the digits' value |
| PriceServer.ParseIntReadsDecimal | backend/server.js:36 | `parseInt` reads back every natural number's `toString` |
| PriceServer.ParseIntNaN | backend/server.js:36 | text starting with anything other than whitespace, a sign or a digit is NaN |
| PriceServer.SavingsPercent | backend/server.js:37 | the saving is the integer nearest to 100·(85000−d)/85000 (halves up), and lies in 0..100 when 0 ≤ d ≤ 85000 |
| PriceServer.SavingsPercentUnique | backend/server.js:37 | that rounding condition has exactly one solution |
| PriceServer.SavingsPercentAntitone | backend/server.js:37 | a dearer deal never shows a larger saving |
| PriceServer.DealPayload | backend/server.js:28-44 | the reference price and image are constant; a missing or falsy price gives 85000/85000/0%; a truthy non-string price is a server error and nothing else is; a non-empty string price is echoed |
| PriceServer.PriceStore.constructor | backend/server.js:10 | the store starts empty |
| PriceServer.PriceStore.Get | backend/server.js:26-44 | a key never written answers 85000/85000/0%; every answer has the constant reference price and image; being a function, two lookups with no write between them agree |
| PriceServer.PriceStore.Route | backend/server.js:26 | a path the route does not capture is answered 404, a 400 needs a '%' in the path, and a non-empty part without '/' or '%' is answered by the handler with that key |
| PriceServer.RouteSegment | backend/server.js:26 | the route captures exactly a non-empty run without '/', with or without one trailing '/' |
| PriceServer.PercentDecode | backend/server.js:26 | text without '%' decodes to itself, and decoding never lengthens the text |
| PriceServer.PercentDecodeEscaped | backend/server.js:26 | decoding inverts percent-encoding on every ASCII string |
| PriceServer.PercentDecodeMalformed | backend/server.js:26 | a '%' not followed by a hex digit makes the parameter malformed |
| PriceServer.RouteTrailingSlash | backend/server.js:26 | one trailing '/' reaches the same handler with the same key |
| PriceServer.RouteDecodes | backend/server.js:26 | a key sent fully percent-encoded is looked up as the key itself |
| PriceServer.PriceStore.Post | backend/server.js:13-23 | the title's record is replaced; the answer is always `{success: true, message: 'Price stored'}`; a lookup of the title now sees the new price; every other key answers as before |
| PriceServer.LastWriteWins | backend/server.js:16-19 | after two writes to a key its lookup depends on the second write only |
| PriceServer.DealPayloadParsed | backend/server.js:35-37 | a stored price string that parses shows the rounded saving of the parsed amount |
| PriceServer.DealPayloadUnparsed | backend/server.js:35-37 | a stored price string that does not parse shows a NaN saving |
| PriceServer.SavingsPercentExamples | backend/server.js:37 | 75999 saves 11%, 90000 saves −6%, 85000 saves 0% and 0 saves 100% |
| PriceServer.RupeePriceGivesNaN | backend/server.js:36 | "₹75,999" keeps its rupee sign through the strip and its saving is NaN |
| PriceServer.DigitsValue75999 | backend/server.js:36 | "75999" reads as 75999 |
| PriceServer.PlainPriceParses | backend/server.js:36 | "75,999" strips and parses to 75999 |
| PriceServer.PlainPriceSavesEleven | backend/server.js:35-37 | a stored "75,999" shows an 11% saving |
| PriceServer.DigitsValue90000 | backend/server.js:36 | "90000" reads as 90000 |
| PriceServer.DearerPriceParses | backend/server.js:36 | "90,000" strips and parses to 90000 |
| PriceServer.DearerDealIsNegative | backend/server.js:35-37 | a stored "90,000" shows a −6% saving (no clamping) |
| DealSheet.IsProductPage | src/components/bottomSheet.tsx:38-39 | holds exactly when the URL contains "flipkart.com" and contains "/p/" |
| DealSheet.SegmentEnd | src/components/bottomSheet.tsx:44 | the end of the slash-free run from `k`: no '/' before it, a '/' at it or the end of the URL |
| DealSheet.MatchesAtIsRegex | src/components/bottomSheet.tsx:44 | `/\/([^/]+)\/p\//` matches at `i` with group end `j` exactly when the scan's test holds at `i` and `j` is the end of the run |
| DealSheet.FirstMatch | src/components/bottomSheet.tsx:44 | a position found is in range and passes the test |
| DealSheet.FirstMatchIsLeftmost | src/components/bottomSheet.tsx:44 | the position found is a regex match with no match before it; none found means the regex matches nowhere |
| DealSheet.MatchedSegment | src/components/bottomSheet.tsx:44-45 | no group exactly when the regex does not match; a group is non-empty and slash-free, and is exactly the slash-free run after the leftmost matching '/' |
| DealSheet.KeepAlnumSpace | src/components/bottomSheet.tsx:47 | only ASCII letters, digits and whitespace remain; a single such character is kept and any other single character is deleted |
| DealSheet.KeepAlnumSpaceKeepsKept | src/components/bottomSheet.tsx:47 | a string of letters, digits and whitespace is returned whole |
| DealSheet.KeepAlnumSpaceDropsOthers | src/components/bottomSheet.tsx:47 | a string with no letter, digit or whitespace becomes empty |
| DealSheet.KeepAlnumSpaceAppend | src/components/bottomSheet.tsx:47 | the filter distributes over concatenation |
| DealSheet.TrimOffset | src/components/bottomSheet.tsx:48 | the trimmed slice starts inside the string |
| DealSheet.Trim | src/components/bottomSheet.tsx:48 | `trim` returns a slice of the input with no whitespace at either end |
| DealSheet.TrimDropsOnlySpace | src/components/bottomSheet.tsx:48 | everything `trim` drops, before and after the slice it keeps, is whitespace |
| DealSheet.TrimNoSpace | src/components/bottomSheet.tsx:48 | a string without whitespace is its own trim |
| DealSheet.TrimKeeps | src/components/bottomSheet.tsx:48 | trimming a string of letters, digits and whitespace leaves only such characters |
| DealSheet.CollapseSpaces | src/components/bottomSheet.tsx:49 | no whitespace survives, and a first character that is not whitespace stays first |
| DealSheet.CollapseSpacesNoSpace | src/components/bottomSheet.tsx:49 | a string without whitespace is left as it is |
| DealSheet.CollapseSpacesRun | src/components/bottomSheet.tsx:49 | a whole run of whitespace becomes exactly one '_' |
| DealSheet.CollapseSpacesAppend | src/components/bottomSheet.tsx:49 | collapsing distributes over a split that does not fall inside a whitespace run |
| DealSheet.TrimStartKeeps | src/components/bottomSheet.tsx:48-49 | dropping leading whitespace keeps only characters it was given |
| DealSheet.CollapseSpacesAlphabet | src/components/bottomSheet.tsx:47-49 | after the filter, collapsing leaves only letters, digits and '_' |
| DealSheet.CollapseSpacesNoDouble | src/components/bottomSheet.tsx:48-49 | collapsing whitespace runs into '_' never puts two '_' side by side |
| DealSheet.LowerAsciiKeepsSlug | src/components/bottomSheet.tsx:50 | lower-casing gives characters in [a-z0-9_], keeps underscores lone, and creates no leading '_' |
| DealSheet.Slug | src/components/bottomSheet.tsx:47-51 | the key is at most 20 characters of [a-z0-9_], does not start with '_' and has no '__' |
| DealSheet.SlugOfPlainLetters | src/components/bottomSheet.tsx:47-51 | when the letters and digits of a segment are all lower-case letters and digits, its key is the first 20 of them |
| DealSheet.PlainSegmentIsOwnKey | src/components/bottomSheet.tsx:47-51 | a segment of at most 20 characters of [a-z0-9] is its own key |
| DealSheet.SlugOfPunctuation | src/components/bottomSheet.tsx:47-51 | a segment with no letter, digit or whitespace keys as the empty string |
| DealSheet.KeepHyphenated | src/components/bottomSheet.tsx:47 | the filter drops exactly the hyphens between words of letters and digits |
| DealSheet.HyphenatedWordsKey | src/components/bottomSheet.tsx:47-51 | lower-case words and numbers joined by hyphens key as the words run together, cut to 20 characters |
| DealSheet.IphoneSegmentKey | src/components/bottomSheet.tsx:47-51 | the sample listing segment apple-iphone-14-starlight-128-gb keys as appleiphone14starlig |
| DealSheet.Truncate | src/components/bottomSheet.tsx:51 | `slice(0, n)` is a prefix of the string of length min(|s|, n) |
| DealSheet.ApiTitle | src/components/bottomSheet.tsx:42-55 | at most 20 characters and never a '/'; "unknown_product" when the regex matches nowhere; on a match, the key made from the matched segment |
| DealSheet.SegmentEndAppend | src/components/bottomSheet.tsx:44 | text appended after a '/' that ends the run does not move the run's end |
| DealSheet.MatchesAtAppend | src/components/bottomSheet.tsx:44 | text appended after the run and its "/p/" does not change the test at that position |
| DealSheet.FirstMatchAppend | src/components/bottomSheet.tsx:44 | text appended to a matching URL moves neither the leftmost match nor its group |
| DealSheet.ApiTitleIgnoresSuffix | src/components/bottomSheet.tsx:44-51 | appending anything, such as a query string, to a matching URL leaves its key unchanged |
| DealSheet.FirstMatchSkip | src/components/bottomSheet.tsx:44 | the scan passes over characters other than '/' without a match |
| DealSheet.HostIsNoGroup | src/components/bottomSheet.tsx:44 | in `https://host/segment/p/…` the host is not the group, since `/p/` does not follow it |
| DealSheet.ProductUrlFirstMatch | src/components/bottomSheet.tsx:44 | in `https://host/segment/p/…` the leftmost match is the '/' after the host, and its run ends at the segment's end |
| DealSheet.ProductUrlKey | src/components/bottomSheet.tsx:42-55 | on `https://host/segment/p/rest` the group is the segment after the host, whatever the rest holds, and the key is made from it |
| DealSheet.PunctuationSegmentKeysEmpty | src/components/bottomSheet.tsx:42-55 | a product URL whose segment has no letter or digit (such as `---`) keys as the empty string |
| DealSheet.CountdownTick | src/components/bottomSheet.tsx:92-99 | a count of 1 or less becomes 0 and closes; otherwise it drops by one; never negative |
| DealSheet.Second | src/components/bottomSheet.tsx:91-99 | the count stays non-negative, and a cleared interval changes nothing |
| DealSheet.Seconds | src/components/bottomSheet.tsx:91-99 | over any number of seconds the count stays non-negative, a cleared interval stays as it is, and `onClose` is called once, exactly when the interval stops |
| DealSheet.CountdownRun | src/components/bottomSheet.tsx:90-99 | from `start` the count after `n` seconds is `start − n`, then 0 with the interval cleared and exactly one close |
| DealSheet.TwoMinuteCountdown | src/components/bottomSheet.tsx:88-102 | from 120 the sheet stays open for 119 seconds and closes exactly once at second 120 |
| DealSheet.PadTwo | src/components/bottomSheet.tsx:141 | `padStart(2, '0')` yields at least two digits with the same value |
| DealSheet.TimerLabel | src/components/bottomSheet.tsx:141 | the label is minutes without leading zeros, ':', then two digits below 60, and minutes·60 + seconds is the count |
| DealSheet.MockWowPrice | src/components/bottomSheet.tsx:63 | a mock price is drawn exactly on heads, and it is a non-empty string starting with the rupee sign |
| DealSheet.FallbackPayload | src/components/bottomSheet.tsx:76-83 | reference price 85000, the placeholder image, the mock price as given (or null), and 12% exactly when a non-empty mock price exists, else 0% |
| DealSheet.ShownDealPrice | src/components/bottomSheet.tsx:159 | `??` shows the deal price unless it is null or undefined, then the reference price |
| DealSheet.FallbackWithoutDealMatchesServer | src/components/bottomSheet.tsx:76-83 | without a mock price the fallback shows what the server shows (85000, 0%), though its field is null where the server's is 85000 |
| DealSheet.FallbackWithDealDisagrees | src/components/bottomSheet.tsx:63-83 | for the price the sheet draws, the fallback claims 12%, the server answers NaN for the posted price, and the exact saving is 11% |
| DealSheet.WowJson | src/components/bottomSheet.tsx:63-67 | the posted price is the drawn price as a string when one was drawn, otherwise null |
| DealSheet.FetchDeal | src/components/bottomSheet.tsx:58-85 | `loading` stays set exactly when the POST fails, and on a product page the sheet then draws its spinner; a failed POST sets no data and stores nothing; otherwise the store holds the mock price under the URL's key; the sheet shows the server's payload for a non-empty key, and the fallback when the GET cannot reach the server or the key is empty (the path then matches no route) |
| DealSheet.RoundTripNeverFails | src/components/bottomSheet.tsx:63-75 | the posted price never triggers the server's error path, so a GET that reaches the route is answered with a payload; without a mock price that answer is 85000/85000/0%, and with one it echoes "₹75,999" with a NaN saving |
| DealSheet.Render | src/components/bottomSheet.tsx:118-166 | nothing is drawn exactly when hidden or off a product page; else a spinner exactly while loading, the error text exactly when there is no data, or the deal with the timer label, image, saving, reference price and the `??` price |
| CategoryGrid.SafeCategories | src/components/EcomTile.tsx:34-43 | empty for no categories; otherwise the categories, in order, followed by exactly one "More" tile |
| CategoryGrid.Visible | src/components/EcomTile.tsx:61 | a prefix of the tile list: all of it when expanded, min(7, n) items otherwise |
| CategoryGrid.CollapsedShowsMoreOnlyWhenFew | src/components/EcomTile.tsx:34-61 | collapsed, fewer than 7 categories show all of them plus "More"; 7 or more show the first 7 categories and cut "More" off |
| CategoryGrid.FlattenPush | src/components/EcomTile.tsx:63-66 | pushing a row adds its items to the end of the rows laid end to end |
| CategoryGrid.Rows | src/components/EcomTile.tsx:63-66 | the rows laid end to end are the visible list; no row is empty; at most 4 per row; only the last is short; ceil(n/4) rows |
| CategoryGrid.Grid | src/components/EcomTile.tsx:45-66 | the grid holds exactly the visible tiles in order, and collapsed it takes at most two rows |
| CategoryGrid.ShowToggle | src/components/EcomTile.tsx:127 | the toggle is drawn exactly when the collapsed grid hides part of the tile list |
| CategoryGrid.ToggleShownIffSeven | src/components/EcomTile.tsx:127 | the toggle shows exactly when there are 7 or more categories; when it is hidden, expanding changes nothing |
| CategoryGrid.HandleToggle | src/components/EcomTile.tsx:68 | the toggle negates `expanded` |
| CategoryGrid.ToggleLabel | src/components/EcomTile.tsx:129-131 | the button reads "View more" exactly when collapsed, and "View less" when expanded |
| CategoryGrid.ToggleRestoresFullList | src/components/EcomTile.tsx:61-68 | with the toggle shown, one press changes how many tiles are visible and two presses restore the grid |
| CategoryGrid.FallbackImage | src/components/EcomTile.tsx:78 | a listed key gives its image, any other key the Flipkart logo; the result is always one of the listed, non-empty images |
| CategoryGrid.CategoryFallback | src/components/EcomTile.tsx:115-119 | a category's fallback is the image listed under its lower-cased title, or the Flipkart logo when that title is not listed |
| CategoryGrid.FashionFallsBackToClothes | src/components/EcomTile.tsx:118 | "Fashion" falls back to the clothes icon |
| CategoryGrid.MoreFallsBackToLogo | src/components/EcomTile.tsx:78 | the "More" tile has no entry and falls back to the Flipkart logo |
| Explore.Differs | src/screens/ExploreScreen.tsx:136 | `!==` keeps every product for an id that is not a number, and for a number keeps exactly the products whose id differs |
| Explore.Without | src/screens/ExploreScreen.tsx:136 | no kept product has the id; a product is kept exactly when it was there and its id differs |
| Explore.WithoutAppend | src/screens/ExploreScreen.tsx:136 | filtering distributes over concatenation, so kept products keep their relative order |
| Explore.WithoutAbsent | src/screens/ExploreScreen.tsx:136 | an id no product carries leaves the list unchanged |
| Explore.WithoutIdempotent | src/screens/ExploreScreen.tsx:136 | removing an id twice equals removing it once |
| Explore.NonNumericIdRemovesNothing | src/screens/ExploreScreen.tsx:136 | under `!==` an id that is not a number removes nothing |
| Explore.RemoveProduct | src/screens/ExploreScreen.tsx:134-139 | only the product list changes, and it becomes the filtered list |
| Explore.RemovingThreeDropsTwo | src/screens/ExploreScreen.tsx:66-102 | removing id 3 from the mock products drops both "Dell Laptop" and "Wrist Watch" and keeps the first two |
| Explore.WebUriSet | src/screens/ExploreScreen.tsx:114 | the web view counts as open exactly when `webUri` is truthy |
| Explore.SubmitSearch | src/screens/ExploreScreen.tsx:125-128 | the web view opens on the search prefix followed by the query verbatim, the query is cleared, and nothing else changes |
| Explore.MerchantPress | src/screens/ExploreScreen.tsx:130-132 | `handleMerchantPress` would open the web view on the Flipkart home page; nothing on the screen calls it |
| Explore.CloseWebView | src/screens/ExploreScreen.tsx:199 | the close button clears the web view |
| Explore.BackPress | src/screens/ExploreScreen.tsx:113-119 | handled exactly when a web view is open, which it then closes; otherwise nothing changes; afterwards no web view is open |
| Explore.BackAfterSearch | src/screens/ExploreScreen.tsx:112-128 | back after a search is handled, and the next back goes to the system |
| Explore.NavigationChange | src/screens/ExploreScreen.tsx:207-211 | the URL is recorded and the sheet is raised exactly on URLs containing "flipkart.com" and "/p/"; nothing else changes |
| Explore.CloseSheet | src/screens/ExploreScreen.tsx:219 | `onClose` lowers the sheet and changes nothing else |
| Explore.RaisedSheetAlwaysDraws | src/screens/ExploreScreen.tsx:207-220 | the screen's test equals the sheet's `isProductPage`, so a raised sheet always draws and a lowered one never does |
| Explore.ClosedSheetIsHidden | src/screens/ExploreScreen.tsx:216-220 | after `onClose` the sheet draws nothing |
| Explore.MerchantItems | src/screens/ExploreScreen.tsx:149 | one merchant row per merchant, in order, keyed by its id |
| Explore.ListData | src/screens/ExploreScreen.tsx:146-151 | header, then search, then the merchant rows in order, then products |
| Explore.ListKeysDistinct | src/screens/ExploreScreen.tsx:146-151 | the list keys are unique when merchant ids are unique and avoid the three fixed keys |
| Explore.RenderItem | src/screens/ExploreScreen.tsx:154-177 | "header" draws the header section, "search" the search bar with the query, "merchant" the latest purchases of the screen's products; "products" and unknown kinds draw nothing |
| Explore.RenderList | src/screens/ExploreScreen.tsx:181-184 | each row is drawn by `renderItem` |
| Explore.ScreenRows | src/screens/ExploreScreen.tsx:146-177 | the screen draws header, search bar, latest purchases, then nothing |
| Explore.MockMerchantHasNoToggle | src/screens/ExploreScreen.tsx:20-64 | the mock merchant's six categories plus "More" fit the collapsed grid, so a category tile for it would show no toggle (the screen itself draws the merchant row with LatestPurchasesTile) |

## Left out

- HTTP plumbing (express, cors, body-parser, `app.listen`, `fetch` and its headers, JSON
  encoding) and `console.log` are left out. The handlers are modelled as operations on
  the store.
- The sheet's POST and GET are both made against the same store. A non-empty key has only
  characters in [a-z0-9_], so URL decoding leaves it unchanged. An empty key makes the GET
  path `/api/prices/`, which no route matches; `PriceStore.Route` answers it 404.
- `new Date()` becomes the parameter `now`, and `Math.random() > 0.5` becomes the
  parameter `heads`.
- Network failures are the parameters `postReached` and `getReached`. A server answer that
  is not `ok` is treated like a failed GET.
- Timers, `useEffect` scheduling, animation, modals, the web view, `BackHandler`
  registration and styles are left out. Only the state changes they trigger are modelled.
- Layout numerics, `toLocaleString` and `getItemLayout` are floating point or
  presentation, and are left out.
- The components Background, SearchBar and LatestPurchasesTile are not part of this model.
  What they do with the values passed to them is not modelled.
- Strings are sequences of Unicode characters, not UTF-16 code units. A character outside
  the Basic Multilingual Plane counts as one character here but as two code units in
  JavaScript. The keys that `slice(0, 20)` cuts are ASCII by then, so this affects no
  modelled length.
- There is no concurrency to model: the store is used one request at a time.
- PriceServer.SavingsPercent: rounds the exact rational quotient. It does not model
  floating-point error in `((85000 - d) / 85000) * 100`, which can differ from the exact
  value at an exact half.
- PriceServer.ParseMagnitude: it does not model the loss of precision above 2^53, or
  `Infinity` for very long digit runs.
- PriceServer.JsValue: JSON numbers are integers here. Fractional prices are not modelled.
- PriceServer.PropertyKey: an array title is coerced as if it were a plain object. A
  number is written in full decimal, while JavaScript writes a magnitude of 10^21 or more
  in exponent form (`1e+21`), and `JSON.parse` has already rounded an integer above 2^53
  to the nearest double.
- PriceServer.PercentDecode: only escapes below `%80` are decoded. An escape of 0x80 or more
  starts a UTF-8 sequence, which `decodeURIComponent` decodes to one character, or rejects
  with 400 when it is invalid. The model answers every such escape 400. The sheet only
  sends keys of [a-z0-9_], so this changes no reachable answer.
- PriceServer.PriceStore: keys inherited from `Object.prototype` are not modelled. A
  `"__proto__"` title changes the object's prototype instead of adding a key, and a
  lookup of `"constructor"` finds a function. The model treats every title as an
  ordinary key.
- DealSheet.IsProductPage: the optional chaining `u?.` on an undefined URL is not modelled.
  The URL is always a string here.
- Strings.LowerAscii: only ASCII letters are lowered. In `getApiTitle` the filter has
  already removed every other letter, so this is exact there. For a non-ASCII category
  title in `fallbackKey` it is weaker than `toLowerCase`.
- CategoryGrid.SafeCategories: the merchant's list is a value here, so the copy that
  prevents mutation of the prop is implicit.
- CategoryGrid.Category: pressing a category (`setWebUri(cat.productPageUrl)`), the tile's
  own web view and its back handler are outside the modelled core of the tile.
- Explore.RenderItem: the merchant row's tile receives `onRemove`, a callback. Which
  product it removes is chosen inside LatestPurchasesTile, which is not part of this
  model.
- CategoryGrid.FallbackImage: the lookup `FALLBACK_IMAGES[fallbackKey]` on a plain object
  also finds keys inherited from `Object.prototype`. A category titled "Constructor" looks
  up "constructor" and finds a function, and one titled "__proto__" finds the prototype
  object. Both are truthy, so the image source is set to them instead of the Flipkart
  logo. The model treats only the listed keys as present.
- DealSheet.TwoMinuteCountdown: the screen passes a fresh `onClose` arrow on every render,
  and the countdown effect depends on it. Any re-render of the screen while the sheet is
  up, such as a navigation event, restarts the count at 120. The model runs one
  uninterrupted countdown, so the sheet may in fact stay open longer than 120 seconds.
- Explore.MerchantPress: `handleMerchantPress` is listed in `renderItem`'s dependencies but
  is attached to no element, so the running screen never calls it. It is modelled as the
  handler it would be.
- Explore.MockMerchantHasNoToggle: the screen draws the merchant row with
  LatestPurchasesTile, not with the category tile. The lemma states what a category tile
  would show for the mock merchant.
