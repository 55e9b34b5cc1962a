/** The mock price backend: an in-memory store from product title to the last
    recorded Wow-Deal price, written by POST /api/prices and read by
    GET /api/prices/:productTitle, which derives a display payload. */
module PriceServer {
  import opened Strings

  /** A value as a JSON request body can carry it (numbers are integers here);
      `Undefined` is a field the body does not have. */
  datatype JsValue = Undefined | Null | Bool(b: bool) | Num(n: int) | Str(s: string) | Composite

  /** JavaScript truthiness, as `||` and `if` use it: every value is truthy except
      the five falsy ones a JSON body can carry. */
  function Truthy(v: JsValue): (b: bool)
    ensures b <==> v != Undefined && v != Null && v != Bool(false) && v != Num(0) && v != Str("")
  {
    match v
    case Undefined => false
    case Null => false
    case Bool(b) => b
    case Num(n) => n != 0
    case Str(s) => s != ""
    case Composite => true
  }

  /** A JavaScript number as the payload carries it; `Math.round(NaN)` is NaN,
      which the JSON response spells `null`. */
  datatype JsNumber = NaN | Finite(value: int)

  /** The static reference ("Flipkart") price */
  const FlipkartPrice: int := 85000
  const PlaceholderImage: string := "https://via.placeholder.com/300x200/FF6B35/FFFFFF?text=PiePay+Deal"

  /** One stored entry; `timestamp` is the clock reading at the write. */
  datatype PriceRecord = PriceRecord(wowDealPrice: JsValue, timestamp: int)

  datatype PostBody = PostBody(productTitle: JsValue, wowDealPrice: JsValue)
  datatype Ack = Ack(success: bool, message: string)

  datatype Payload = Payload(flipkartPrice: int, wowDealPrice: JsValue, productImgUri: string,
                             savingsPercentage: JsNumber)

  /** A GET answer: the payload, the server error Express sends when the handler throws,
      the 404 Express sends for a path no route matches, or the 400 it sends when the
      matched parameter is not valid percent-encoding. */
  datatype Reply = Ok(payload: Payload) | ServerError | NotFound | BadRequest

  /** The payload for a title with no usable promotional price */
  const NoDealPayload: Payload := Payload(FlipkartPrice, Num(FlipkartPrice), PlaceholderImage, Finite(0))

  /** The string a value becomes when used as an object property key */
  function PropertyKey(title: JsValue): (k: string)
    ensures title.Str? ==> k == title.s
  {
    match title
    case Undefined => "undefined"
    case Null => "null"
    case Bool(b) => if b then "true" else "false"
    case Num(n) => if n < 0 then "-" + DecimalString(-n) else DecimalString(n)
    case Str(s) => s
    case Composite => "[object Object]"
  }

  /** The characters of the class `[â‚¹,]` in the stripping regex: the three characters
      that the UTF-8 bytes of the rupee sign read as in Windows-1252, and the comma.
      The rupee sign U+20B9 itself is not among them. */
  predicate InStripClass(c: char) {
    c == '\U{00E2}' || c == '\U{201A}' || c == '\U{00B9}' || c == ','
  }

  /** `s.replace(/[â‚¹,]/g, '')` */
  function StripCurrency(s: string): (r: string)
    ensures |r| <= |s|
    ensures forall i :: 0 <= i < |r| ==> !InStripClass(r[i])
    ensures |s| == 1 && InStripClass(s[0]) ==> r == []
    ensures |s| == 1 && !InStripClass(s[0]) ==> r == s
  {
    if s == [] then []
    else if InStripClass(s[0]) then StripCurrency(s[1..])
    else [s[0]] + StripCurrency(s[1..])
  }

  /** Stripping removes exactly the class characters: a string without them is kept whole. */
  lemma {:induction false} StripCurrencyKeepsOthers(s: string)
    requires forall i :: 0 <= i < |s| ==> !InStripClass(s[i])
    ensures StripCurrency(s) == s
  {
    if s != [] {
      StripCurrencyKeepsOthers(s[1..]);
    }
  }

  /** Stripping works character by character, so it distributes over concatenation. */
  lemma {:induction false} StripCurrencyAppend(a: string, b: string)
    ensures StripCurrency(a + b) == StripCurrency(a) + StripCurrency(b)
  {
    if a == [] {
      assert a + b == b;
    } else {
      assert (a + b)[0] == a[0] && (a + b)[1..] == a[1..] + b;
      StripCurrencyAppend(a[1..], b);
      if !InStripClass(a[0]) {
        assert [a[0]] + StripCurrency(a[1..]) + StripCurrency(b) == [a[0]] + (StripCurrency(a[1..]) + StripCurrency(b));
      }
    }
  }

  /** The length of the longest prefix of `s` made of digits of the radix */
  function DigitPrefix(s: string, radix: nat): (k: nat)
    ensures k <= |s| && AllRadixDigits(s[..k], radix)
    ensures k < |s| ==> RadixDigit(s[k]) >= radix
  {
    if s == [] || RadixDigit(s[0]) >= radix then 0
    else
      var k := 1 + DigitPrefix(s[1..], radix);
      assert s[..k] == [s[0]] + s[1..][..k - 1];
      k
  }

  /** The text starts with `0x` or `0X`. */
  predicate HexPrefix(s: string) {
    |s| >= 2 && s[0] == '0' && (s[1] == 'x' || s[1] == 'X')
  }

  /** The digits after the sign, as `parseInt` with no radix reads them: radix 16 after a
      `0x` or `0X` prefix, else radix 10, and the longest run of digits of that radix;
      `None` when that run is empty. */
  function ParseMagnitude(s: string): (r: Option<nat>)
    ensures r.Some? ==> s != [] && IsDigit(s[0])
    ensures s != [] && IsDigit(s[0]) && !HexPrefix(s) ==> r.Some?
  {
    var hex := HexPrefix(s);
    var radix := if hex then 16 else 10;
    var body := if hex then s[2..] else s;
    var k := DigitPrefix(body, radix);
    if k == 0 then None else Some(ValueIn(body[..k], radix))
  }

  /** `parseInt(s)` with no radix argument: skip leading whitespace, then read a signed
      magnitude. */
  function ParseInt(input: string): (r: JsNumber)
    ensures TrimStart(input) == [] ==> r == NaN
    ensures r.Finite? && r.value < 0 ==> TrimStart(input)[0] == '-'
    ensures r.Finite? ==> exists i :: 0 <= i < |input| && IsDigit(input[i])
  {
    ParseSigned(TrimStart(input))
  }

  /** The text after the whitespace: one optional sign, then the magnitude; NaN when it
      has no digits. */
  function ParseSigned(s: string): (r: JsNumber)
    ensures s == [] ==> r == NaN
    ensures r.Finite? && r.value < 0 ==> s[0] == '-'
    ensures r.Finite? ==> exists i :: 0 <= i < |s| && IsDigit(s[i])
  {
    var signed := |s| > 0 && (s[0] == '-' || s[0] == '+');
    var magnitude := ParseMagnitude(if signed then s[1..] else s);
    if magnitude.None? then NaN
    else if signed && s[0] == '-' then Finite(0 - magnitude.value)
    else Finite(magnitude.value)
  }

  /** A run of decimal digits followed by non-digit text has the run's value as its
      magnitude, unless the run is "0" and the text makes it a hex prefix. */
  lemma ParseMagnitudeDigits(digits: string, rest: string)
    requires digits != [] && AllRadixDigits(digits, 10)
    requires rest == [] || !IsDigit(rest[0])
    requires digits == "0" ==> rest == [] || (rest[0] != 'x' && rest[0] != 'X')
    ensures ParseMagnitude(digits + rest) == Some(ValueIn(digits, 10))
  {
    NoHexPrefix(digits, rest);
    DigitPrefixOfRun(digits, rest);
    assert (digits + rest)[..|digits|] == digits;
  }

  lemma NoHexPrefix(digits: string, rest: string)
    requires digits != [] && AllRadixDigits(digits, 10)
    requires digits == "0" ==> rest == [] || (rest[0] != 'x' && rest[0] != 'X')
    ensures !HexPrefix(digits + rest)
  {
    var s := digits + rest;
    if |s| >= 2 && s[0] == '0' {
      if |digits| == 1 {
        assert digits == "0" && s[1] == rest[0];
      } else {
        assert s[1] == digits[1] && RadixDigit(digits[1]) < 10;
      }
    }
  }

  lemma DigitPrefixOfRun(digits: string, rest: string)
    requires AllRadixDigits(digits, 10)
    requires rest == [] || !IsDigit(rest[0])
    ensures DigitPrefix(digits + rest, 10) == |digits|
  {
    var s := digits + rest;
    var k := DigitPrefix(s, 10);
    assert s[..|digits|] == digits;
    assert |rest| > 0 ==> s[|digits|] == rest[0];
  }

  /** Leading whitespace does not change what `parseInt` reads. */
  lemma ParseIntSkipsSpace(c: char, s: string)
    requires IsJsSpace(c)
    ensures ParseInt([c] + s) == ParseInt(s)
  {
    TrimStartSkips(c, s);
  }

  /** A plus sign in front of unsigned text does not change what `parseInt` reads. */
  lemma ParseIntPlus(t: string)
    requires t == [] || (!IsJsSpace(t[0]) && t[0] != '-' && t[0] != '+')
    ensures ParseInt("+" + t) == ParseInt(t)
  {
    var input := "+" + t;
    TrimStartNoSpace(input);
    assert input[1..] == t;
    if t != [] {
      TrimStartNoSpace(t);
    }
  }

  /** Text that starts with neither whitespace nor a sign is read as a magnitude. */
  lemma ParseIntUnsigned(input: string)
    requires input != [] && !IsJsSpace(input[0]) && input[0] != '-' && input[0] != '+'
    ensures ParseInt(input) == if ParseMagnitude(input).None? then NaN else Finite(ParseMagnitude(input).value)
  {
    TrimStartNoSpace(input);
  }

  /** Text that starts with a minus sign is read as a negated magnitude. */
  lemma ParseIntMinus(tail: string)
    ensures ParseInt("-" + tail) == if ParseMagnitude(tail).None? then NaN else Finite(0 - ParseMagnitude(tail).value)
  {
    var input := "-" + tail;
    TrimStartNoSpace(input);
    assert input[1..] == tail;
  }

  /** `parseInt` reads a run of decimal digits, whatever non-digit text follows,
      unless the run is "0" and the text makes it a hex prefix. */
  lemma ParseIntDigits(digits: string, rest: string)
    requires digits != [] && AllRadixDigits(digits, 10)
    requires rest == [] || !IsDigit(rest[0])
    requires digits == "0" ==> rest == [] || (rest[0] != 'x' && rest[0] != 'X')
    ensures ParseInt(digits + rest) == Finite(ValueIn(digits, 10))
  {
    var input := digits + rest;
    assert RadixDigit(input[0]) < 10;
    ParseIntUnsigned(input);
    ParseMagnitudeDigits(digits, rest);
  }

  /** The same after a minus sign. */
  lemma ParseIntNegativeDigits(digits: string, rest: string)
    requires digits != [] && AllRadixDigits(digits, 10)
    requires rest == [] || !IsDigit(rest[0])
    requires digits == "0" ==> rest == [] || (rest[0] != 'x' && rest[0] != 'X')
    ensures ParseInt("-" + (digits + rest)) == Finite(0 - ValueIn(digits, 10))
  {
    var tail := digits + rest;
    ParseMagnitudeDigits(digits, rest);
    var m := ParseMagnitude(tail);
    assert m == Some(ValueIn(digits, 10));
    ParseIntMinus(tail);
  }

  /** `parseInt` reads back what `toString` writes. */
  lemma ParseIntReadsDecimal(n: nat)
    ensures ParseInt(DecimalString(n)) == Finite(n)
  {
    assert DecimalString(n) + "" == DecimalString(n);
    ParseIntDigits(DecimalString(n), "");
  }

  /** Text whose first character is neither whitespace, a sign nor a digit parses to NaN. */
  lemma ParseIntNaN(s: string)
    requires |s| > 0 && !IsJsSpace(s[0]) && !IsDigit(s[0]) && s[0] != '-' && s[0] != '+'
    ensures ParseInt(s) == NaN
  {
    ParseIntUnsigned(s);
    assert RadixDigit(s[0]) >= 10;
    if RadixDigit(s[0]) < 16 {
      assert s[0] != '0';
    }
  }

  /** `Math.round(((85000 - d) / 85000) * 100)` over exact rationals: the integer
      nearest to 100 * (85000 - d) / 85000, halves rounded up. */
  function SavingsPercent(d: int): (r: int)
    ensures 2 * FlipkartPrice * r - FlipkartPrice <= 200 * (FlipkartPrice - d) < 2 * FlipkartPrice * r + FlipkartPrice
    ensures 0 <= d <= FlipkartPrice ==> 0 <= r <= 100
  {
    (200 * (FlipkartPrice - d) + FlipkartPrice) / (2 * FlipkartPrice)
  }

  /** The rounding condition determines the percentage: no other integer meets it. */
  lemma SavingsPercentUnique(d: int, r: int)
    requires 2 * FlipkartPrice * r - FlipkartPrice <= 200 * (FlipkartPrice - d) < 2 * FlipkartPrice * r + FlipkartPrice
    ensures r == SavingsPercent(d)
  {
  }

  /** A dearer deal never shows a larger saving. */
  lemma SavingsPercentAntitone(d1: int, d2: int)
    requires d1 <= d2
    ensures SavingsPercent(d2) <= SavingsPercent(d1)
  {
    var r1, r2 := SavingsPercent(d1), SavingsPercent(d2);
    assert 2 * FlipkartPrice * r2 - FlipkartPrice < 2 * FlipkartPrice * r1 + FlipkartPrice;
  }

  /** The payload the GET handler derives from what the store holds for the title
      (`None` when the title was never written). */
  function DealPayload(stored: Option<PriceRecord>): (r: Reply)
    ensures r.Ok? ==> r.payload.flipkartPrice == FlipkartPrice && r.payload.productImgUri == PlaceholderImage
    ensures stored.None? ==> r == Ok(NoDealPayload)
    ensures stored.Some? && !Truthy(stored.value.wowDealPrice) ==> r == Ok(NoDealPayload)
    ensures r.ServerError? <==> stored.Some? && Truthy(stored.value.wowDealPrice) && !stored.value.wowDealPrice.Str?
    ensures stored.Some? && stored.value.wowDealPrice.Str? && stored.value.wowDealPrice.s != ""
            ==> r.Ok? && r.payload.wowDealPrice == stored.value.wowDealPrice
  {
    var price := if stored.Some? then stored.value.wowDealPrice else Undefined;
    var shown := if Truthy(price) then price else Num(FlipkartPrice);
    if !Truthy(price) then Ok(Payload(FlipkartPrice, shown, PlaceholderImage, Finite(0)))
    else if !price.Str? then ServerError  // `.replace` is not a function of a non-string
    else
      var amount := ParseInt(StripCurrency(price.s));
      var savings := if amount.NaN? then NaN else Finite(SavingsPercent(amount.value));
      Ok(Payload(FlipkartPrice, shown, PlaceholderImage, savings))
  }

  /* ------------------------------ routing ------------------------------- */

  /** What `/api/prices/:productTitle` captures from the path after `/api/prices/`: a
      non-empty run without '/', which one trailing '/' may follow, since Express routes
      are not strict about a trailing slash. No capture means no route matches. */
  function RouteSegment(rest: string): (g: Option<string>)
    ensures g.Some? ==> g.value != [] && '/' !in g.value && (rest == g.value || rest == g.value + "/")
    ensures g.None? <==> rest == [] || rest == "/" || '/' in rest[..|rest| - 1]
  {
    var seg := if rest != [] && rest[|rest| - 1] == '/' then rest[..|rest| - 1] else rest;
    if seg == [] || '/' in seg then None else Some(seg)
  }

  /** `c` in front of a decoded string, or the failure passed on */
  function Prepend(c: char, o: Option<string>): Option<string> {
    match o
    case None => None
    case Some(t) => Some([c] + t)
  }

  /** `decodeURIComponent`, which Express applies to the captured parameter: `%XY` with
      two hex digits below 0x80 is the character with that code, and a '%' without two
      hex digits after it is malformed. */
  function PercentDecode(s: string): (r: Option<string>)
    ensures '%' !in s ==> r == Some(s)
    ensures r.Some? ==> |r.value| <= |s|
    decreases |s|
  {
    if s == [] then Some([])
    else if s[0] != '%' then
      assert [s[0]] + s[1..] == s;
      Prepend(s[0], PercentDecode(s[1..]))
    else if |s| >= 3 && RadixDigit(s[1]) < 8 && RadixDigit(s[2]) < 16 then
      Prepend((16 * RadixDigit(s[1]) + RadixDigit(s[2])) as char, PercentDecode(s[3..]))
    else None
  }

  /** The hex digit for a value below 16, upper case as `encodeURIComponent` writes it */
  function HexChar(d: nat): (c: char)
    requires d < 16
    ensures RadixDigit(c) == d
  {
    if d < 10 then DigitChar(d) else ('A' as int + d - 10) as char
  }

  /** `encodeURIComponent` of one ASCII character, written as an escape */
  function Escape(c: char): (e: string)
    requires c as int < 0x80
  {
    ['%', HexChar(c as int / 16), HexChar(c as int % 16)]
  }

  /** Every character of an ASCII string written as an escape */
  function EscapeAll(s: string): (e: string)
    requires forall i :: 0 <= i < |s| ==> s[i] as int < 0x80
  {
    if s == [] then [] else Escape(s[0]) + EscapeAll(s[1..])
  }

  /** An escape in front decodes to its character. */
  lemma EscapeDecodes(c: char, t: string)
    requires c as int < 0x80
    ensures PercentDecode(Escape(c) + t) == Prepend(c, PercentDecode(t))
  {
    var s := Escape(c) + t;
    assert s[0] == '%' && s[1] == HexChar(c as int / 16) && s[2] == HexChar(c as int % 16);
    assert s[3..] == t;
  }

  /** Decoding inverts escaping: a key sent fully escaped is looked up as itself. */
  lemma {:induction false} PercentDecodeEscaped(s: string)
    requires forall i :: 0 <= i < |s| ==> s[i] as int < 0x80
    ensures PercentDecode(EscapeAll(s)) == Some(s)
  {
    if s != [] {
      PercentDecodeEscaped(s[1..]);
      EscapeDecodes(s[0], EscapeAll(s[1..]));
      assert [s[0]] + s[1..] == s;
    }
  }

  /** A '%' not followed by a hex digit makes the whole parameter malformed. */
  lemma PercentDecodeMalformed(t: string)
    requires t == [] || RadixDigit(t[0]) >= 16
    ensures PercentDecode("%" + t) == None
  {
  }

  /** A number title is stored under digits that `parseInt` reads back as the number. */
  lemma PropertyKeyOfNumber(n: int)
    ensures ParseInt(PropertyKey(Num(n))) == Finite(n)
  {
    if n >= 0 {
      ParseIntReadsDecimal(n);
    } else {
      assert PropertyKey(Num(n)) == "-" + DecimalString(-n);
      ParseIntReadsNegative(-n);
    }
  }

  /** `parseInt` reads back a minus sign in front of a natural number's `toString`. */
  lemma ParseIntReadsNegative(m: nat)
    ensures ParseInt("-" + DecimalString(m)) == Finite(0 - m)
  {
    var d := DecimalString(m);
    assert d + "" == d;
    ParseIntNegativeDigits(d, "");
  }

  /** Two different number titles never share a record. */
  lemma NumberKeysDistinct(m: int, n: int)
    requires m != n
    ensures PropertyKey(Num(m)) != PropertyKey(Num(n))
  {
    PropertyKeyOfNumber(m);
    PropertyKeyOfNumber(n);
  }

  /** The store's map of records. */
  class PriceStore {
    var prices: map<string, PriceRecord>

    constructor ()
      ensures prices == map[]
    {
      prices := map[];
    }

    /** GET /api/prices/:productTitle. A function of the store: it changes nothing, so two
        lookups without a write in between answer the same. */
    function Get(title: string): (r: Reply)
      reads this
      ensures title !in prices ==> r == Ok(NoDealPayload)
      ensures r.Ok? ==> r.payload.flipkartPrice == FlipkartPrice && r.payload.productImgUri == PlaceholderImage
    {
      DealPayload(if title in prices then Some(prices[title]) else None)
    }

    /** A GET request for the path `/api/prices/` + `rest`: a path the route does not
        capture is answered 404, a malformed parameter 400, and otherwise the handler
        looks up the decoded parameter. */
    function Route(rest: string): (r: Reply)
      reads this
      ensures r.NotFound? <==> RouteSegment(rest).None?
      ensures r.BadRequest? ==> '%' in rest
      ensures rest != [] && '/' !in rest && '%' !in rest ==> r == Get(rest)
      ensures r.Ok? || r.ServerError? ==> exists key :: r == Get(key)
    {
      match RouteSegment(rest)
      case None => NotFound
      case Some(seg) =>
        match PercentDecode(seg)
        case None => BadRequest
        case Some(key) => Get(key)
    }

    /** POST /api/prices: overwrite the title's record, always acknowledging success. */
    method Post(body: PostBody, now: int) returns (ack: Ack)
      modifies this
      ensures prices == old(prices)[PropertyKey(body.productTitle) := PriceRecord(body.wowDealPrice, now)]
      ensures ack == Ack(true, "Price stored")
      ensures Get(PropertyKey(body.productTitle)) == DealPayload(Some(PriceRecord(body.wowDealPrice, now)))
      ensures forall k :: k != PropertyKey(body.productTitle) ==> Get(k) == old(Get(k))
    {
      prices := prices[PropertyKey(body.productTitle) := PriceRecord(body.wowDealPrice, now)];
      ack := Ack(true, "Price stored");
    }
  }

  /** One trailing '/' after a segment reaches the same handler with the same key. */
  lemma RouteTrailingSlash(store: PriceStore, seg: string)
    requires seg != [] && '/' !in seg
    ensures store.Route(seg + "/") == store.Route(seg)
  {
    assert (seg + "/")[..|seg|] == seg;
  }

  /** A key sent fully percent-encoded is looked up as the key itself. */
  lemma RouteDecodes(store: PriceStore, key: string)
    requires key != [] && forall i :: 0 <= i < |key| ==> key[i] as int < 0x80
    ensures store.Route(EscapeAll(key)) == store.Get(key)
  {
    EscapedKeyCaptured(key);
    RouteCaptured(store, EscapeAll(key), key);
  }

  /** An escaped key is captured whole and decodes back to the key. */
  lemma EscapedKeyCaptured(key: string)
    requires key != [] && forall i :: 0 <= i < |key| ==> key[i] as int < 0x80
    ensures RouteSegment(EscapeAll(key)) == Some(EscapeAll(key))
    ensures PercentDecode(EscapeAll(key)) == Some(key)
  {
    EscapeAllShape(key);
    RouteSegmentPlain(EscapeAll(key));
    PercentDecodeEscaped(key);
  }

  /** A non-empty path part without '/' is captured whole. */
  lemma RouteSegmentPlain(rest: string)
    requires rest != [] && '/' !in rest
    ensures RouteSegment(rest) == Some(rest)
  {
  }

  /** A captured parameter that decodes is looked up decoded. */
  lemma RouteCaptured(store: PriceStore, rest: string, key: string)
    requires RouteSegment(rest) == Some(rest) && PercentDecode(rest) == Some(key)
    ensures store.Route(rest) == store.Get(key)
  {
  }

  /** Escaping writes no '/' and makes nothing empty. */
  lemma {:induction false} EscapeAllShape(s: string)
    requires forall i :: 0 <= i < |s| ==> s[i] as int < 0x80
    ensures |EscapeAll(s)| == 3 * |s| && '/' !in EscapeAll(s)
  {
    if s != [] {
      EscapeAllShape(s[1..]);
      var e := Escape(s[0]);
      assert e[0] == '%' && RadixDigit(e[1]) < 16 && RadixDigit(e[2]) < 16;
    }
  }

  /** The first of two writes to a key leaves no trace in the second's lookup. */
  method LastWriteWins(store: PriceStore, key: string, first: JsValue, second: JsValue, t1: int, t2: int)
    modifies store
    ensures store.Get(key) == DealPayload(Some(PriceRecord(second, t2)))
  {
    var _ := store.Post(PostBody(Str(key), first), t1);
    var _ := store.Post(PostBody(Str(key), second), t2);
  }

  /** A stored non-empty price string whose stripped text parses shows the rounded
      saving of the parsed amount. */
  lemma DealPayloadParsed(price: string, t: int, amount: int)
    requires price != "" && ParseInt(StripCurrency(price)) == Finite(amount)
    ensures DealPayload(Some(PriceRecord(Str(price), t)))
            == Ok(Payload(FlipkartPrice, Str(price), PlaceholderImage, Finite(SavingsPercent(amount))))
  {
  }

  /** A stored non-empty price string whose stripped text does not parse shows a NaN saving. */
  lemma DealPayloadUnparsed(price: string, t: int)
    requires price != "" && ParseInt(StripCurrency(price)) == NaN
    ensures DealPayload(Some(PriceRecord(Str(price), t)))
            == Ok(Payload(FlipkartPrice, Str(price), PlaceholderImage, NaN))
  {
  }

  /** Worked values of the rounding: the app's mock price, a price above the reference,
      the reference itself and a free product. */
  lemma SavingsPercentExamples()
    ensures SavingsPercent(75999) == 11 && SavingsPercent(90000) == -6
    ensures SavingsPercent(FlipkartPrice) == 0 && SavingsPercent(0) == 100
  {
  }

  /** The app's own mock price '₹75,999' keeps its rupee sign through stripping, so the
      server answers a NaN (JSON null) saving. */
  lemma RupeePriceGivesNaN(t: int)
    ensures DealPayload(Some(PriceRecord(Str("₹75,999"), t)))
            == Ok(Payload(FlipkartPrice, Str("₹75,999"), PlaceholderImage, NaN))
  {
    assert StripCurrency("₹75,999") == "₹75999";
    ParseIntNaN("₹75999");
    DealPayloadUnparsed("₹75,999", t);
  }

  lemma DigitsValue75999()
    ensures AllRadixDigits("75999", 10) && ValueIn("75999", 10) == 75999
  {
    assert "" + ['7'] == "7"; ValueInAppend("", '7', 10);
    assert "7" + ['5'] == "75"; ValueInAppend("7", '5', 10);
    assert "75" + ['9'] == "759"; ValueInAppend("75", '9', 10);
    assert "759" + ['9'] == "7599"; ValueInAppend("759", '9', 10);
    assert "7599" + ['9'] == "75999"; ValueInAppend("7599", '9', 10);
  }

  lemma PlainPriceParses()
    ensures ParseInt(StripCurrency("75,999")) == Finite(75999)
  {
    assert StripCurrency("75,999") == "75999" + "";
    DigitsValue75999();
    ParseIntDigits("75999", "");
  }

  /** Without the rupee sign the same price saves 11%. */
  lemma PlainPriceSavesEleven(t: int)
    ensures DealPayload(Some(PriceRecord(Str("75,999"), t)))
            == Ok(Payload(FlipkartPrice, Str("75,999"), PlaceholderImage, Finite(11)))
  {
    PlainPriceParses();
    DealPayloadParsed("75,999", t, 75999);
    SavingsPercentExamples();
  }

  lemma DigitsValue90000()
    ensures AllRadixDigits("90000", 10) && ValueIn("90000", 10) == 90000
  {
    assert "" + ['9'] == "9"; ValueInAppend("", '9', 10);
    assert "9" + ['0'] == "90"; ValueInAppend("9", '0', 10);
    assert "90" + ['0'] == "900"; ValueInAppend("90", '0', 10);
    assert "900" + ['0'] == "9000"; ValueInAppend("900", '0', 10);
    assert "9000" + ['0'] == "90000"; ValueInAppend("9000", '0', 10);
  }

  lemma DearerPriceParses()
    ensures ParseInt(StripCurrency("90,000")) == Finite(90000)
  {
    assert StripCurrency("90,000") == "90000" + "";
    DigitsValue90000();
    ParseIntDigits("90000", "");
  }

  /** A deal above the reference price is not clamped: it yields a negative saving. */
  lemma DearerDealIsNegative(t: int)
    ensures DealPayload(Some(PriceRecord(Str("90,000"), t)))
            == Ok(Payload(FlipkartPrice, Str("90,000"), PlaceholderImage, Finite(-6)))
  {
    DearerPriceParses();
    DealPayloadParsed("90,000", t, 90000);
    SavingsPercentExamples();
  }
}
