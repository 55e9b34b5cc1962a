/** The PiePay bottom sheet: it recognises a Flipkart product page, derives the product
    key from the page URL, counts down two minutes and falls back to a local payload
    when the price service cannot be reached. */
module DealSheet {
  import opened Strings
  import opened PriceServer

  /* ---------------------------- product pages ---------------------------- */

  /** `isProductPage`: the URL mentions "flipkart.com" and "/p/". */
  function IsProductPage(u: string): (b: bool)
    ensures b <==> (exists i :: OccursAt(u, "flipkart.com", i)) && (exists i :: OccursAt(u, "/p/", i))
  {
    Includes(u, "flipkart.com") && Includes(u, "/p/")
  }

  /* -------------------------- matching the slug -------------------------- */

  /** The end of the run of characters other than '/' that starts at `k` */
  function SegmentEnd(u: string, k: nat): (j: nat)
    requires k <= |u|
    ensures k <= j <= |u|
    ensures forall m :: k <= m < j ==> u[m] != '/'
    ensures j < |u| ==> u[j] == '/'
    decreases |u| - k
  {
    if k == |u| || u[k] == '/' then k else SegmentEnd(u, k + 1)
  }

  /** The regex `/\/([^/]+)\/p\//` matches `u` at index `i` with its group `u[i+1..j]`. */
  predicate RegexMatch(u: string, i: int, j: int) {
    0 <= i && i + 1 < j && j + 3 <= |u| && u[i] == '/'
    && (forall m :: i + 1 <= m < j ==> u[m] != '/') && u[j..j + 3] == "/p/"
  }

  /** The scan's test at `i`: the group can only be the whole slash-free run after `u[i]`. */
  predicate MatchesAt(u: string, i: nat)
    requires i < |u|
  {
    u[i] == '/' && var e := SegmentEnd(u, i + 1); e > i + 1 && e + 3 <= |u| && u[e..e + 3] == "/p/"
  }

  /** The scan's test is the regex: a match at `i` has exactly one possible group end. */
  lemma MatchesAtIsRegex(u: string, i: nat, j: int)
    requires i < |u|
    ensures RegexMatch(u, i, j) <==> MatchesAt(u, i) && j == SegmentEnd(u, i + 1)
  {
    var e := SegmentEnd(u, i + 1);
    if RegexMatch(u, i, j) {
      assert u[j] == u[j..j + 3][0] == '/';
    }
  }

  /** The leftmost position at or after `i` where the scan's test succeeds */
  function FirstMatch(u: string, i: nat): (r: Option<nat>)
    requires i <= |u|
    ensures r.Some? ==> i <= r.value < |u| && MatchesAt(u, r.value)
    decreases |u| - i
  {
    if i == |u| then None
    else if MatchesAt(u, i) then Some(i)
    else FirstMatch(u, i + 1)
  }

  /** The scan finds what the regex engine finds: the leftmost match at or after `i`,
      and none when the regex matches nowhere there. */
  lemma {:induction false} FirstMatchIsLeftmost(u: string, i: nat)
    requires i <= |u|
    ensures FirstMatch(u, i).Some? ==> RegexMatch(u, FirstMatch(u, i).value, SegmentEnd(u, FirstMatch(u, i).value + 1))
    ensures FirstMatch(u, i).Some? ==> forall k, j :: i <= k < FirstMatch(u, i).value ==> !RegexMatch(u, k, j)
    ensures FirstMatch(u, i).None? ==> forall k, j :: i <= k ==> !RegexMatch(u, k, j)
    decreases |u| - i
  {
    if i == |u| {
      assert forall k, j :: i <= k ==> !RegexMatch(u, k, j);
    } else if MatchesAt(u, i) {
      MatchesAtIsRegex(u, i, SegmentEnd(u, i + 1));
    } else {
      FirstMatchIsLeftmost(u, i + 1);
      forall j | true ensures !RegexMatch(u, i, j) {
        MatchesAtIsRegex(u, i, j);
      }
    }
  }

  /** `match[1]`: the group of the leftmost match, if any */
  function MatchedSegment(u: string): (g: Option<string>)
    ensures g.None? <==> forall k, j :: !RegexMatch(u, k, j)
    ensures g.Some? ==> g.value != [] && forall m :: 0 <= m < |g.value| ==> g.value[m] != '/'
    ensures g.Some? ==>
              FirstMatch(u, 0).Some? &&
              g.value == u[FirstMatch(u, 0).value + 1..SegmentEnd(u, FirstMatch(u, 0).value + 1)]
  {
    FirstMatchIsLeftmost(u, 0);
    match FirstMatch(u, 0)
    case None => None
    case Some(k) => Some(u[k + 1..SegmentEnd(u, k + 1)])
  }

  /* -------------------------- building the slug -------------------------- */

  predicate KeptBySlug(c: char) { IsAsciiAlnum(c) || IsJsSpace(c) }

  predicate IsSlugChar(c: char) { IsAsciiLower(c) || IsDigit(c) || c == '_' }

  predicate NoDoubleUnderscore(s: string) {
    forall i :: 0 <= i < |s| - 1 && s[i] == '_' ==> s[i + 1] != '_'
  }

  /** `.replace(/[^a-zA-Z0-9\s]/g, '')` */
  function KeepAlnumSpace(s: string): (r: string)
    ensures |r| <= |s|
    ensures forall i :: 0 <= i < |r| ==> KeptBySlug(r[i])
    ensures |s| == 1 && KeptBySlug(s[0]) ==> r == s
    ensures |s| == 1 && !KeptBySlug(s[0]) ==> r == []
  {
    if s == [] then []
    else if KeptBySlug(s[0]) then [s[0]] + KeepAlnumSpace(s[1..])
    else KeepAlnumSpace(s[1..])
  }

  /** Letters, digits and whitespace are all kept. */
  lemma {:induction false} KeepAlnumSpaceKeepsKept(s: string)
    requires forall i :: 0 <= i < |s| ==> KeptBySlug(s[i])
    ensures KeepAlnumSpace(s) == s
  {
    if s != [] {
      KeepAlnumSpaceKeepsKept(s[1..]);
    }
  }

  /** Everything else is dropped. */
  lemma {:induction false} KeepAlnumSpaceDropsOthers(s: string)
    requires forall i :: 0 <= i < |s| ==> !KeptBySlug(s[i])
    ensures KeepAlnumSpace(s) == []
  {
    if s != [] {
      KeepAlnumSpaceDropsOthers(s[1..]);
    }
  }

  /** The filter works character by character, so it distributes over concatenation. */
  lemma {:induction false} KeepAlnumSpaceAppend(a: string, b: string)
    ensures KeepAlnumSpace(a + b) == KeepAlnumSpace(a) + KeepAlnumSpace(b)
  {
    if a == [] {
      assert a + b == b;
    } else {
      assert (a + b)[0] == a[0] && (a + b)[1..] == a[1..] + b;
      KeepAlnumSpaceAppend(a[1..], b);
      if KeptBySlug(a[0]) {
        assert [a[0]] + KeepAlnumSpace(a[1..]) + KeepAlnumSpace(b) == [a[0]] + (KeepAlnumSpace(a[1..]) + KeepAlnumSpace(b));
      }
    }
  }

  /** Where `.trim()` starts the slice it keeps */
  function TrimOffset(s: string): (a: nat)
    ensures a <= |s|
  {
    |s| - |TrimStart(s)|
  }

  /** `.trim()`: what remains is a slice of the input with no whitespace at either end. */
  function Trim(s: string): (r: string)
    ensures TrimOffset(s) + |r| <= |s| && r == s[TrimOffset(s)..TrimOffset(s) + |r|]
    ensures r == [] || (!IsJsSpace(r[0]) && !IsJsSpace(r[|r| - 1]))
  {
    var t := TrimStart(s);
    var r := TrimEnd(t);
    assert r != [] ==> r[0] == t[0];
    r
  }

  /** Everything `.trim()` drops, before and after the slice it keeps, is whitespace. */
  lemma TrimDropsOnlySpace(s: string)
    ensures forall i :: 0 <= i < TrimOffset(s) ==> IsJsSpace(s[i])
    ensures forall i :: TrimOffset(s) + |Trim(s)| <= i < |s| ==> IsJsSpace(s[i])
  {
    var t, a, r := TrimStart(s), TrimOffset(s), Trim(s);
    assert r == TrimEnd(t);
    ShiftedSpaces(s, t, a, |r|);
  }

  /** Whitespace from index `k` on in a suffix `t` of `s` starting at `a` is whitespace
      from `a + k` on in `s`. */
  lemma ShiftedSpaces(s: string, t: string, a: nat, k: nat)
    requires a <= |s| && t == s[a..]
    requires forall i :: k <= i < |t| ==> IsJsSpace(t[i])
    ensures forall i :: a + k <= i < |s| ==> IsJsSpace(s[i])
  {
    forall i | a + k <= i < |s| ensures IsJsSpace(s[i]) {
      assert s[i] == t[i - a];
    }
  }

  /** Trimming keeps only characters it was given. */
  lemma TrimKeeps(s: string)
    requires forall i :: 0 <= i < |s| ==> KeptBySlug(s[i])
    ensures forall i :: 0 <= i < |Trim(s)| ==> KeptBySlug(Trim(s)[i])
  {
    var r, a := Trim(s), TrimOffset(s);
    SliceKeeps(s, a, a + |r|);
  }

  /** A slice keeps only characters it was given. */
  lemma SliceKeeps(s: string, a: nat, b: nat)
    requires a <= b <= |s|
    requires forall i :: 0 <= i < |s| ==> KeptBySlug(s[i])
    ensures forall i :: 0 <= i < b - a ==> KeptBySlug(s[a..b][i])
  {
    forall i | 0 <= i < b - a ensures KeptBySlug(s[a..b][i]) {
      assert s[a..b][i] == s[a + i];
    }
  }

  /** `.replace(/\s+/g, '_')`: every run of whitespace becomes one underscore. */
  function CollapseSpaces(s: string): (r: string)
    ensures forall i :: 0 <= i < |r| ==> !IsJsSpace(r[i])
    ensures s != [] && !IsJsSpace(s[0]) ==> r != [] && r[0] == s[0]
    decreases |s|
  {
    if s == [] then []
    else if IsJsSpace(s[0]) then "_" + CollapseSpaces(TrimStart(s[1..]))
    else [s[0]] + CollapseSpaces(s[1..])
  }

  /** A string without whitespace is left as it is. */
  lemma {:induction false} CollapseSpacesNoSpace(s: string)
    requires forall i :: 0 <= i < |s| ==> !IsJsSpace(s[i])
    ensures CollapseSpaces(s) == s
  {
    if s != [] {
      CollapseSpacesNoSpace(s[1..]);
    }
  }

  /** What collapsing writes for the first character of `a` */
  function CollapseHead(a: string): string
    requires a != []
  {
    if IsJsSpace(a[0]) then "_" else [a[0]]
  }

  /** What collapsing continues with after the first character of `a`: the rest, or the
      rest past the whitespace run when `a` starts with one */
  function CollapseNext(a: string): string
    requires a != []
  {
    if IsJsSpace(a[0]) then TrimStart(a[1..]) else a[1..]
  }

  /** One step of collapsing */
  lemma CollapseSpacesUnfold(a: string)
    requires a != []
    ensures CollapseSpaces(a) == CollapseHead(a) + CollapseSpaces(CollapseNext(a))
  {
  }

  /** A whole run of whitespace becomes exactly one underscore. */
  lemma CollapseSpacesRun(w: string, t: string)
    requires w != [] && forall i :: 0 <= i < |w| ==> IsJsSpace(w[i])
    requires t == [] || !IsJsSpace(t[0])
    ensures CollapseSpaces(w + t) == "_" + CollapseSpaces(t)
  {
    RunStep(w, t);
    CollapseSpacesUnfold(w + t);
  }

  /** The first step of collapsing a run: one underscore, then what follows the run */
  lemma RunStep(w: string, t: string)
    requires w != [] && forall i :: 0 <= i < |w| ==> IsJsSpace(w[i])
    requires t == [] || !IsJsSpace(t[0])
    ensures CollapseHead(w + t) == "_" && CollapseNext(w + t) == t
  {
    var s := w + t;
    assert s[0] == w[0] && s[1..] == w[1..] + t;
    TrimStartSpaces(w[1..], t);
  }

  /** Collapsing distributes over a split that does not fall inside a run of whitespace. */
  lemma {:induction false} CollapseSpacesAppend(a: string, b: string)
    requires a == [] || !IsJsSpace(a[|a| - 1])
    ensures CollapseSpaces(a + b) == CollapseSpaces(a) + CollapseSpaces(b)
    decreases |a|
  {
    if a == [] {
      assert a + b == b;
    } else {
      CollapseNextEnd(a);
      CollapseSpacesAppend(CollapseNext(a), b);
      CollapseSpacesStep(a, b);
    }
  }

  /** When `a` ends in a non-space, so does what collapsing continues with. */
  lemma CollapseNextEnd(a: string)
    requires a != [] && !IsJsSpace(a[|a| - 1])
    ensures |CollapseNext(a)| < |a|
    ensures CollapseNext(a) == [] || !IsJsSpace(CollapseNext(a)[|CollapseNext(a)| - 1])
  {
    if IsJsSpace(a[0]) {
      assert a[1..][|a| - 2] == a[|a| - 1];
    }
  }

  /** The first step of collapsing `a + b` is the first step of collapsing `a`. */
  lemma CollapseNextAppend(a: string, b: string)
    requires a != [] && !IsJsSpace(a[|a| - 1])
    ensures CollapseHead(a + b) == CollapseHead(a)
    ensures CollapseNext(a + b) == CollapseNext(a) + b
  {
    var s := a + b;
    assert s[0] == a[0] && s[1..] == a[1..] + b;
    if IsJsSpace(a[0]) {
      TrimStartAppend(a[1..], b);
    }
  }

  /** One step of the induction: if the rest of `a` distributes, so does `a`. */
  lemma CollapseSpacesStep(a: string, b: string)
    requires a != [] && !IsJsSpace(a[|a| - 1])
    requires CollapseSpaces(CollapseNext(a) + b) == CollapseSpaces(CollapseNext(a)) + CollapseSpaces(b)
    ensures CollapseSpaces(a + b) == CollapseSpaces(a) + CollapseSpaces(b)
  {
    CollapseNextAppend(a, b);
    CollapseSpacesUnfold(a + b);
    CollapseSpacesUnfold(a);
    Regroup(CollapseSpaces(a + b), CollapseSpaces(a), CollapseHead(a), CollapseSpaces(CollapseNext(a)), CollapseSpaces(b));
  }

  lemma Regroup(x: string, y: string, h: string, m: string, z: string)
    requires x == h + (m + z) && y == h + m
    ensures x == y + z
  {
  }

  /** Dropping leading whitespace keeps only characters it was given. */
  lemma TrimStartKeeps(s: string)
    requires forall i :: 0 <= i < |s| ==> KeptBySlug(s[i])
    ensures forall i :: 0 <= i < |TrimStart(s)| ==> KeptBySlug(TrimStart(s)[i])
  {
    var t := TrimStart(s);
    assert forall i :: 0 <= i < |t| ==> t[i] == s[|s| - |t| + i];
  }

  /** Collapsing letters, digits and whitespace leaves letters, digits and underscores. */
  lemma {:induction false} CollapseSpacesAlphabet(s: string)
    requires forall i :: 0 <= i < |s| ==> KeptBySlug(s[i])
    ensures forall i :: 0 <= i < |CollapseSpaces(s)| ==> IsAsciiAlnum(CollapseSpaces(s)[i]) || CollapseSpaces(s)[i] == '_'
    decreases |s|
  {
    if s != [] {
      var t := CollapseNext(s);
      if IsJsSpace(s[0]) {
        TrimStartKeeps(s[1..]);
      }
      CollapseSpacesAlphabet(t);
      CollapseSpacesUnfold(s);
      var h, c := CollapseHead(s), CollapseSpaces(t);
      assert KeptBySlug(s[0]);
      assert h[0] == '_' || IsAsciiAlnum(h[0]);
      PrefixAlphabet(h, c);
    }
  }

  /** Two strings of letters, digits and underscores put together are one. */
  lemma PrefixAlphabet(h: string, c: string)
    requires |h| == 1 && (IsAsciiAlnum(h[0]) || h[0] == '_')
    requires forall i :: 0 <= i < |c| ==> IsAsciiAlnum(c[i]) || c[i] == '_'
    ensures forall i :: 0 <= i < |h + c| ==> IsAsciiAlnum((h + c)[i]) || (h + c)[i] == '_'
  {
    forall i | 0 <= i < |h + c| ensures IsAsciiAlnum((h + c)[i]) || (h + c)[i] == '_' {
      if i > 0 {
        assert (h + c)[i] == c[i - 1];
      }
    }
  }

  /** Each run of whitespace becomes one underscore, so no two underscores touch. */
  lemma {:induction false} CollapseSpacesNoDouble(s: string)
    requires forall i :: 0 <= i < |s| ==> KeptBySlug(s[i])
    ensures NoDoubleUnderscore(CollapseSpaces(s))
    decreases |s|
  {
    if s != [] {
      var t := CollapseNext(s);
      if IsJsSpace(s[0]) {
        TrimStartKeeps(s[1..]);
      }
      CollapseSpacesNoDouble(t);
      CollapseSpacesUnfold(s);
      var r, c := CollapseSpaces(s), CollapseSpaces(t);
      assert r == CollapseHead(s) + c;
      if IsJsSpace(s[0]) {
        assert c != [] ==> c[0] == t[0] && !IsJsSpace(t[0]) && KeptBySlug(t[0]);
      } else {
        assert r[0] == s[0] && KeptBySlug(s[0]);
      }
      assert forall i :: 1 <= i < |r| ==> r[i] == c[i - 1];
    }
  }

  /** `.toLowerCase()`, which meets only ASCII letters here */
  lemma LowerAsciiKeepsSlug(s: string)
    requires forall i :: 0 <= i < |s| ==> IsAsciiAlnum(s[i]) || s[i] == '_'
    requires NoDoubleUnderscore(s)
    ensures forall i :: 0 <= i < |s| ==> IsSlugChar(LowerAscii(s)[i])
    ensures NoDoubleUnderscore(LowerAscii(s))
    ensures s != [] && s[0] != '_' ==> LowerAscii(s)[0] != '_'
  {
  }

  /** The whole chain of string transforms applied to the matched segment */
  function Slug(g: string): (r: string)
    ensures |r| <= 20
    ensures forall i :: 0 <= i < |r| ==> IsSlugChar(r[i])
    ensures r == [] || r[0] != '_'
    ensures NoDoubleUnderscore(r)
  {
    var trimmed := Trim(KeepAlnumSpace(g));
    TrimKeeps(KeepAlnumSpace(g));
    CollapseSpacesAlphabet(trimmed);
    CollapseSpacesNoDouble(trimmed);
    LowerAsciiKeepsSlug(CollapseSpaces(trimmed));
    Truncate(LowerAscii(CollapseSpaces(trimmed)), 20)
  }

  /** `.slice(0, n)` */
  function Truncate(s: string, n: nat): (r: string)
    ensures |r| <= n && |r| <= |s| && r == s[..|r|]
    ensures |r| == if |s| <= n then |s| else n
  {
    if |s| <= n then s else s[..n]
  }

  /** A segment whose letters and digits are all lower-case letters and digits, once its
      other characters are dropped, keys as its first twenty of those. */
  lemma SlugOfPlainLetters(g: string)
    requires forall i :: 0 <= i < |KeepAlnumSpace(g)| ==> IsAsciiLower(KeepAlnumSpace(g)[i]) || IsDigit(KeepAlnumSpace(g)[i])
    ensures Slug(g) == Truncate(KeepAlnumSpace(g), 20)
  {
    var k := KeepAlnumSpace(g);
    TrimNoSpace(k);
    CollapseSpacesNoSpace(k);
    LowerAsciiNoUpper(k);
  }

  /** A string without whitespace is its own trim. */
  lemma TrimNoSpace(k: string)
    requires forall i :: 0 <= i < |k| ==> !IsJsSpace(k[i])
    ensures Trim(k) == k
  {
    assert TrimStart(k) == k by {
      if k != [] {
        TrimStartNoSpace(k);
      }
    }
  }

  /** A segment of at most twenty lower-case letters and digits is its own key. */
  lemma PlainSegmentIsOwnKey(g: string)
    requires |g| <= 20 && forall i :: 0 <= i < |g| ==> IsAsciiLower(g[i]) || IsDigit(g[i])
    ensures Slug(g) == g
  {
    KeepAlnumSpaceKeepsKept(g);
    SlugOfPlainLetters(g);
  }

  /** A segment with no letter, digit or whitespace keys as the empty string. */
  lemma SlugOfPunctuation(g: string)
    requires forall i :: 0 <= i < |g| ==> !KeptBySlug(g[i])
    ensures Slug(g) == ""
  {
    KeepAlnumSpaceDropsOthers(g);
    SlugOfPlainLetters(g);
  }

  const UnknownProduct: string := "unknown_product"

  /** `getApiTitle`: the product key the sheet posts and fetches the price under */
  function ApiTitle(u: string): (r: string)
    ensures |r| <= 20
    ensures (forall k, j :: !RegexMatch(u, k, j)) ==> r == UnknownProduct
    ensures MatchedSegment(u).Some? ==>
              (forall i :: 0 <= i < |r| ==> IsSlugChar(r[i])) && (r == [] || r[0] != '_') && NoDoubleUnderscore(r)
    ensures MatchedSegment(u).Some? ==> r == Slug(MatchedSegment(u).value)
    ensures forall i :: 0 <= i < |r| ==> r[i] != '/' && r[i] != '%'
  {
    match MatchedSegment(u)
    case None => UnknownProduct
    case Some(g) => Slug(g)
  }

  /** The run that starts at `k` ends at the first slash from `k` on. */
  lemma SegmentEndAt(u: string, k: nat, j: nat)
    requires k <= j < |u| && u[j] == '/'
    requires forall m :: k <= m < j ==> u[m] != '/'
    ensures SegmentEnd(u, k) == j
  {
  }

  /** The scan passes over characters other than '/' without a match. */
  lemma {:induction false} FirstMatchSkip(u: string, i: nat, j: nat)
    requires i <= j <= |u|
    requires forall m :: i <= m < j ==> u[m] != '/'
    ensures FirstMatch(u, i) == FirstMatch(u, j)
    decreases j - i
  {
    if i < j {
      FirstMatchSkip(u, i + 1, j);
    }
  }

  /** A product URL of the usual shape: `https://`, the host, `/`, the segment, `/p/`
      and the rest */
  function ProductUrl(host: string, seg: string, rest: string): string
  {
    "https://" + host + "/" + seg + "/p/" + rest
  }

  /** Where the slashes of such a URL are, up to the `/p/` */
  lemma ProductUrlSlashes(host: string, seg: string, rest: string)
    requires forall m :: 0 <= m < |host| ==> host[m] != '/'
    requires forall m :: 0 <= m < |seg| ==> seg[m] != '/'
    ensures var u, h := ProductUrl(host, seg, rest), 8 + |host|;
            |u| == h + |seg| + 4 + |rest| &&
            (forall m :: 0 <= m < 6 ==> u[m] != '/') && u[6] == '/' && u[7] == '/' &&
            (forall m :: 8 <= m < h ==> u[m] != '/') && u[h] == '/' &&
            (forall m :: h + 1 <= m < h + 1 + |seg| ==> u[m] == seg[m - h - 1]) &&
            u[h + 1 + |seg|..h + 4 + |seg|] == "/p/"
  {
    var u, h := ProductUrl(host, seg, rest), 8 + |host|;
    assert u == "https:" + "/" + "/" + host + "/" + seg + "/p/" + rest;
    assert forall m :: 8 <= m < h ==> u[m] == host[m - 8];
  }

  /** The scan finds nothing before the slash that ends the host, and matches there. */
  lemma ProductUrlFirstMatch(host: string, seg: string, rest: string)
    requires host != [] && forall m :: 0 <= m < |host| ==> host[m] != '/'
    requires seg != [] && seg != "p" && forall m :: 0 <= m < |seg| ==> seg[m] != '/'
    ensures FirstMatch(ProductUrl(host, seg, rest), 0) == Some(8 + |host|)
    ensures SegmentEnd(ProductUrl(host, seg, rest), 9 + |host|) == 9 + |host| + |seg|
  {
    var u := ProductUrl(host, seg, rest);
    var h, e := 8 + |host|, 9 + |host| + |seg|;
    ProductUrlSlashes(host, seg, rest);
    FirstMatchSkip(u, 0, 6);
    SegmentEndAt(u, 7, 7);
    assert !MatchesAt(u, 6);
    HostIsNoGroup(host, seg, rest);
    FirstMatchSkip(u, 8, h);
    SegmentEndAt(u, h + 1, e);
    assert MatchesAt(u, h);
  }

  /** The host cannot be the group: the text after it is not `/p/`. */
  lemma HostIsNoGroup(host: string, seg: string, rest: string)
    requires host != [] && forall m :: 0 <= m < |host| ==> host[m] != '/'
    requires seg != [] && seg != "p" && forall m :: 0 <= m < |seg| ==> seg[m] != '/'
    ensures !MatchesAt(ProductUrl(host, seg, rest), 7)
  {
    var u, h := ProductUrl(host, seg, rest), 8 + |host|;
    ProductUrlSlashes(host, seg, rest);
    SegmentEndAt(u, 8, h);
    if u[h + 1] == 'p' {
      assert |seg| > 1 && u[h + 2] == seg[1];
    }
  }

  /** On a product URL of the usual shape the matched segment is the one after the host,
      whatever the rest holds, and the key is made from it. */
  lemma ProductUrlKey(host: string, seg: string, rest: string)
    requires host != [] && forall m :: 0 <= m < |host| ==> host[m] != '/'
    requires seg != [] && seg != "p" && forall m :: 0 <= m < |seg| ==> seg[m] != '/'
    ensures MatchedSegment(ProductUrl(host, seg, rest)) == Some(seg)
    ensures ApiTitle(ProductUrl(host, seg, rest)) == Slug(seg)
  {
    var u, h := ProductUrl(host, seg, rest), 8 + |host|;
    ProductUrlFirstMatch(host, seg, rest);
    var g := MatchedSegment(u);
    assert g.value == u[h + 1..h + 1 + |seg|];
    assert g.value == seg by {
      ProductUrlSlashes(host, seg, rest);
    }
  }

  /** A slash-free run that ends inside `u` ends at the same place in any extension of `u`. */
  lemma {:induction false} SegmentEndAppend(u: string, x: string, k: nat)
    requires k <= |u| && SegmentEnd(u, k) < |u|
    ensures SegmentEnd(u + x, k) == SegmentEnd(u, k)
    decreases |u| - k
  {
    if u[k] != '/' {
      SegmentEndAppend(u, x, k + 1);
    }
  }

  /** Text appended after `u` does not change the test at `i` when the slash-free run
      after `u[i]` and the three characters after it lie inside `u`. */
  lemma MatchesAtAppend(u: string, x: string, i: nat)
    requires i < |u|
    requires u[i] == '/' ==> SegmentEnd(u, i + 1) + 3 <= |u|
    ensures MatchesAt(u + x, i) == MatchesAt(u, i)
  {
    var v := u + x;
    assert v[i] == u[i];
    if u[i] == '/' {
      var e := SegmentEnd(u, i + 1);
      SegmentEndAppend(u, x, i + 1);
      assert v[e..e + 3] == u[e..e + 3];
    }
  }

  /** Text appended after a match cannot move the leftmost match or its group. */
  lemma {:induction false} FirstMatchAppend(u: string, x: string, i: nat)
    requires i <= |u| && FirstMatch(u, i).Some?
    ensures FirstMatch(u + x, i) == FirstMatch(u, i)
    ensures SegmentEnd(u + x, FirstMatch(u, i).value + 1) == SegmentEnd(u, FirstMatch(u, i).value + 1)
    decreases |u| - i
  {
    var m := FirstMatch(u, i).value;
    SegmentEndAppend(u, x, m + 1);
    if i == m {
      MatchesAtAppend(u, x, i);
    } else {
      if u[i] == '/' {
        var e := SegmentEnd(u, i + 1);
        assert e <= m;
      }
      MatchesAtAppend(u, x, i);
      FirstMatchAppend(u, x, i + 1);
    }
  }

  /** Appending a query string (or anything else) to a product URL keeps its key. */
  lemma ApiTitleIgnoresSuffix(u: string, x: string)
    requires MatchedSegment(u).Some?
    ensures ApiTitle(u + x) == ApiTitle(u)
  {
    FirstMatchAppend(u, x, 0);
    var k := FirstMatch(u, 0).value;
    var e := SegmentEnd(u, k + 1);
    assert (u + x)[k + 1..e] == u[k + 1..e];
    assert MatchedSegment(u + x) == MatchedSegment(u);
  }

  /** A product URL whose segment has no letter or digit keys as the empty string, so
      the sheet's GET for it misses the route and the fallback is shown. */
  lemma PunctuationSegmentKeysEmpty(host: string, seg: string, rest: string)
    requires host != [] && forall m :: 0 <= m < |host| ==> host[m] != '/'
    requires seg != [] && forall m :: 0 <= m < |seg| ==> seg[m] != '/' && !KeptBySlug(seg[m])
    ensures ApiTitle(ProductUrl(host, seg, rest)) == ""
  {
    assert seg != "p" by {
      assert !KeptBySlug(seg[0]);
    }
    ProductUrlKey(host, seg, rest);
    SlugOfPunctuation(seg);
  }

  /** Words joined by hyphens, as listing URLs spell a product name */
  function Hyphenated(words: seq<string>): string
  {
    if |words| <= 1 then (if words == [] then [] else words[0])
    else words[0] + "-" + Hyphenated(words[1..])
  }

  /** Words run together */
  function Glued(words: seq<string>): string
  {
    if words == [] then [] else words[0] + Glued(words[1..])
  }

  /** The filter drops the hyphens between words of letters and digits and nothing else. */
  lemma {:induction false} KeepHyphenated(words: seq<string>)
    requires forall k, i :: 0 <= k < |words| && 0 <= i < |words[k]| ==> IsAsciiAlnum(words[k][i])
    ensures KeepAlnumSpace(Hyphenated(words)) == Glued(words)
  {
    if |words| == 1 {
      KeepAlnumSpaceKeepsKept(words[0]);
      assert Glued(words) == words[0] + [];
    } else if |words| > 1 {
      KeepHyphenated(words[1..]);
      KeepPieces(words[0], Hyphenated(words[1..]));
    }
  }

  /** A segment of lower-case words and numbers joined by hyphens keys as the words run
      together, cut to twenty characters. */
  lemma HyphenatedWordsKey(words: seq<string>)
    requires forall k, i :: 0 <= k < |words| && 0 <= i < |words[k]| ==> IsAsciiLower(words[k][i]) || IsDigit(words[k][i])
    ensures Slug(Hyphenated(words)) == Truncate(Glued(words), 20)
  {
    KeepHyphenated(words);
    GluedChars(words);
    SlugOfPlainLetters(Hyphenated(words));
  }

  lemma {:induction false} GluedChars(words: seq<string>)
    requires forall k, i :: 0 <= k < |words| && 0 <= i < |words[k]| ==> IsAsciiLower(words[k][i]) || IsDigit(words[k][i])
    ensures forall i :: 0 <= i < |Glued(words)| ==> IsAsciiLower(Glued(words)[i]) || IsDigit(Glued(words)[i])
  {
    if words != [] {
      GluedChars(words[1..]);
      var g, r := Glued(words), Glued(words[1..]);
      assert forall i :: |words[0]| <= i < |g| ==> g[i] == r[i - |words[0]|];
    }
  }

  /** The sample listing's segment, the words apple, iphone, 14, starlight, 128 and gb
      joined by hyphens, keys as `appleiphone14starlig`. */
  lemma IphoneSegmentKey(words: seq<string>)
    requires words == ["apple", "iphone", "14", "starlight", "128", "gb"]
    ensures Slug(Hyphenated(words)) == "appleiphone14starlig"
  {
    IphoneWords(words);
    HyphenatedWordsKey(words);
  }

  lemma IphoneWords(words: seq<string>)
    requires words == ["apple", "iphone", "14", "starlight", "128", "gb"]
    ensures forall k, i :: 0 <= k < |words| && 0 <= i < |words[k]| ==> IsAsciiLower(words[k][i]) || IsDigit(words[k][i])
    ensures Truncate(Glued(words), 20) == "appleiphone14starlig"
  {
    IphoneGlued(words);
  }

  lemma IphoneGlued(words: seq<string>)
    requires words == ["apple", "iphone", "14", "starlight", "128", "gb"]
    ensures Glued(words) == "appleiphone14starlight128gb"
  {
    assert Glued(words[5..]) == "gb";
    assert Glued(words[4..]) == "128gb";
    assert Glued(words[3..]) == "starlight128gb";
    assert Glued(words[2..]) == "14starlight128gb";
    assert Glued(words[1..]) == "iphone14starlight128gb";
  }

  /** A hyphen between a run of letters and digits and the rest is dropped. */
  lemma KeepPieces(word: string, rest: string)
    requires forall i :: 0 <= i < |word| ==> IsAsciiAlnum(word[i])
    ensures KeepAlnumSpace(word + "-" + rest) == word + KeepAlnumSpace(rest)
  {
    var a := word + "-";
    KeepAlnumSpaceAppend(a, rest);
    KeepAlnumSpaceAppend(word, "-");
    KeepAlnumSpaceKeepsKept(word);
    var d := KeepAlnumSpace("-");
    assert d == [];
    assert word + d == word;
  }

  /* ------------------------------ countdown ------------------------------ */

  const CountdownSeconds: int := 120

  /** One result of the interval's updater: the new count, and whether it closes the sheet */
  datatype TickResult = TickResult(count: int, close: bool)

  /** The updater `prev => prev <= 1 ? 0 : prev - 1`, which also clears the interval and
      calls `onClose` when it reaches 0. */
  function CountdownTick(prev: int): (t: TickResult)
    ensures t.count >= 0
    ensures t.close <==> prev <= 1
    ensures t.close ==> t.count == 0
    ensures prev >= 1 ==> t.count == prev - 1
  {
    if prev <= 1 then TickResult(0, true) else TickResult(prev - 1, false)
  }

  /** The countdown as the sheet runs it: the count, whether the interval still runs,
      and how many times `onClose` has been called. */
  datatype Countdown = Countdown(count: int, running: bool, closes: nat)

  /** Becoming visible resets the count to two minutes and starts the interval. */
  const StartCountdown: Countdown := Countdown(CountdownSeconds, true, 0)

  /** One second of the interval; a cleared interval no longer fires. */
  function Second(c: Countdown): (d: Countdown)
    ensures c.count >= 0 ==> d.count >= 0
    ensures !c.running ==> d == c
  {
    if !c.running then c
    else
      var t := CountdownTick(c.count);
      Countdown(t.count, !t.close, c.closes + if t.close then 1 else 0)
  }

  /** `n` seconds of the interval: the count never goes negative, a stopped countdown
      stays as it is, and `onClose` is called once, exactly when the interval stops. */
  function Seconds(c: Countdown, n: nat): (d: Countdown)
    ensures c.count >= 0 ==> d.count >= 0
    ensures !c.running ==> d == c
    ensures d.closes == c.closes + (if c.running && !d.running then 1 else 0)
    decreases n
  {
    if n == 0 then c else Seconds(Second(c), n - 1)
  }

  /** Started at `start` >= 1, the count falls by one a second, reaches 0 after exactly
      `start` seconds, closes the sheet once at that moment, and then stays put. */
  lemma {:induction false} CountdownRun(start: int, n: nat)
    requires start >= 1
    ensures Seconds(Countdown(start, true, 0), n)
            == if n < start then Countdown(start - n, true, 0) else Countdown(0, false, 1)
  {
    if n > 0 {
      if start > 1 {
        CountdownRun(start - 1, n - 1);
      }
    }
  }

  /** From the two-minute start the sheet closes after exactly 120 seconds and never before. */
  lemma TwoMinuteCountdown(n: nat)
    ensures n < CountdownSeconds ==> Seconds(StartCountdown, n).running && Seconds(StartCountdown, n).closes == 0
    ensures n >= CountdownSeconds ==> Seconds(StartCountdown, n) == Countdown(0, false, 1)
    ensures Seconds(StartCountdown, n).count >= 0
  {
    CountdownRun(CountdownSeconds, n);
  }

  /* ------------------------------ timer label ----------------------------- */

  /** `s.padStart(2, '0')` */
  function PadTwo(s: string): (r: string)
    requires AllRadixDigits(s, 10)
    ensures |s| >= 2 ==> r == s
    ensures |s| < 2 ==> |r| == 2
    ensures AllRadixDigits(r, 10) && ValueIn(r, 10) == ValueIn(s, 10)
  {
    LeadingZero(s);
    if |s| >= 2 then s
    else
      LeadingZero("0" + s);
      "0" + ("0" + s)[|s| ..]
  }

  /** The label `m:ss` the sheet shows for a count of seconds: the minutes without leading
      zeros, a colon and two digits of seconds. */
  function TimerLabel(count: nat): (r: string)
    ensures |r| >= 4 && r[|r| - 3] == ':'
    ensures AllRadixDigits(r[..|r| - 3], 10) && AllRadixDigits(r[|r| - 2..], 10)
    ensures r[0] == '0' ==> |r| == 4
    ensures ValueIn(r[|r| - 2..], 10) < 60
    ensures ValueIn(r[..|r| - 3], 10) * 60 + ValueIn(r[|r| - 2..], 10) == count
  {
    var minutes := DecimalString(count / 60);
    var seconds := PadTwo(DecimalString(count % 60));
    var r := minutes + ":" + seconds;
    assert |seconds| == 2 && r[0] == minutes[0];
    assert r[..|r| - 3] == minutes && r[|r| - 2..] == seconds;
    r
  }

  /* --------------------------- offline fallback --------------------------- */

  /** The mock Wow-Deal price, chosen by a coin flip (`Math.random() > 0.5`) */
  function MockWowPrice(heads: bool): (wow: Option<string>)
    ensures wow.Some? <==> heads
    ensures wow.Some? ==> wow.value != "" && wow.value[0] == '\U{20B9}'
  {
    if heads then Some("₹75,999") else None
  }

  /** The payload the sheet builds itself when the GET request fails */
  function FallbackPayload(wow: Option<string>): (p: Payload)
    ensures p.flipkartPrice == FlipkartPrice && p.productImgUri == PlaceholderImage
    ensures p.wowDealPrice == if wow.Some? then Str(wow.value) else Null
    ensures p.savingsPercentage == Finite(if wow.Some? && wow.value != "" then 12 else 0)
  {
    var price := if wow.Some? then Str(wow.value) else Null;
    Payload(FlipkartPrice, price, PlaceholderImage, Finite(if Truthy(price) then 12 else 0))
  }

  /** The new price the sheet shows: `wowDealPrice ?? flipkartPrice` */
  function ShownDealPrice(p: Payload): (v: JsValue)
    ensures v.Undefined? == false && v.Null? == false
    ensures !p.wowDealPrice.Null? && !p.wowDealPrice.Undefined? ==> v == p.wowDealPrice
    ensures p.wowDealPrice.Null? || p.wowDealPrice.Undefined? ==> v == Num(p.flipkartPrice)
  {
    if p.wowDealPrice.Null? || p.wowDealPrice.Undefined? then Num(p.flipkartPrice) else p.wowDealPrice
  }

  /** With no mock price the fallback shows what the server would: the reference price
      and no saving, although its `wowDealPrice` field is null where the server's is 85000. */
  lemma FallbackWithoutDealMatchesServer(t: int)
    ensures ShownDealPrice(FallbackPayload(MockWowPrice(false))) == ShownDealPrice(NoDealPayload)
    ensures FallbackPayload(MockWowPrice(false)).savingsPercentage == NoDealPayload.savingsPercentage
    ensures DealPayload(Some(PriceRecord(Null, t))) == Ok(NoDealPayload)
    ensures FallbackPayload(MockWowPrice(false)).wowDealPrice != NoDealPayload.wowDealPrice
  {
  }

  /** With the mock price the fallback claims 12%, the server answers NaN for the same
      string, and the exact saving of 75999 against 85000 is 11%. */
  lemma FallbackWithDealDisagrees(t: int)
    ensures FallbackPayload(MockWowPrice(true)).savingsPercentage == Finite(12)
    ensures DealPayload(Some(PriceRecord(WowJson(MockWowPrice(true)), t))).payload.savingsPercentage == NaN
    ensures SavingsPercent(75999) == 11
  {
    RupeePriceGivesNaN(t);
    SavingsPercentExamples();
  }

  /* ------------------------------ round trip ------------------------------ */

  /** The mock price as the POST body's JSON: a string or null */
  function WowJson(wow: Option<string>): (v: JsValue)
    ensures v.Str? || v.Null?
    ensures wow.Some? <==> v.Str?
    ensures wow.Some? ==> v == Str(wow.value)
  {
    if wow.Some? then Str(wow.value) else Null
  }

  /** `fetchDeal`: post the mock price under the URL's key, then show the server's payload
      for that key, or the local fallback when the GET fails. The GET fails when it cannot
      reach the server, and also when the key is empty: the path `/api/prices/` matches no
      route and is answered 404. A POST that cannot reach the server throws before
      anything is shown (`None`) and before `loading` is cleared, so the sheet keeps its
      spinner. */
  method FetchDeal(store: PriceStore, url: string, heads: bool, now: int, postReached: bool, getReached: bool)
    returns (data: Option<Payload>, loading: bool)
    modifies store
    ensures loading <==> !postReached
    ensures forall count: nat :: IsProductPage(url) ==> (Render(true, url, loading, data, count) == Spinner <==> !postReached)
    ensures !postReached ==> data.None? && store.prices == old(store.prices)
    ensures postReached ==> store.prices == old(store.prices)[ApiTitle(url) := PriceRecord(WowJson(MockWowPrice(heads)), now)]
    ensures postReached && getReached && ApiTitle(url) != "" ==>
              data == Some(DealPayload(Some(PriceRecord(WowJson(MockWowPrice(heads)), now))).payload)
    ensures postReached && (!getReached || ApiTitle(url) == "") ==> data == Some(FallbackPayload(MockWowPrice(heads)))
  {
    loading := true;
    var wow := MockWowPrice(heads);
    var title := ApiTitle(url);
    if !postReached {
      return None, loading;
    }
    var ack := store.Post(PostBody(Str(title), WowJson(wow)), now);
    data := Some(FallbackPayload(wow));
    if getReached {
      var reply := store.Route(title);
      if reply.Ok? {
        data := Some(reply.payload);
      }
    }
    loading := false;
  }

  /** The sheet's round trip never meets the server's error path: the posted price is a
      string or null, so a GET that reaches the route for the key is answered with a payload:
      the default without a mock price, and the drawn price with a NaN saving with one. */
  lemma RoundTripNeverFails(heads: bool, now: int)
    ensures DealPayload(Some(PriceRecord(WowJson(MockWowPrice(heads)), now))).Ok?
    ensures !heads ==> DealPayload(Some(PriceRecord(WowJson(MockWowPrice(heads)), now))) == Ok(NoDealPayload)
    ensures heads ==> DealPayload(Some(PriceRecord(WowJson(MockWowPrice(heads)), now)))
                      == Ok(Payload(FlipkartPrice, Str("₹75,999"), PlaceholderImage, NaN))
  {
    RupeePriceGivesNaN(now);
  }

  /* -------------------------------- render -------------------------------- */

  /** What the sheet draws */
  datatype SheetView =
    | Hidden
    | Spinner
    | Deal(timer: string, image: string, savings: JsNumber, oldPrice: int, newPrice: JsValue)
    | Unavailable

  /** The render: nothing off a product page or when hidden, a spinner while loading,
      then the deal or the error text. */
  function Render(visible: bool, url: string, loading: bool, data: Option<Payload>, count: nat): (v: SheetView)
    ensures v.Hidden? <==> !visible || !IsProductPage(url)
    ensures !v.Hidden? ==> (v.Spinner? <==> loading)
    ensures v.Unavailable? <==> visible && IsProductPage(url) && !loading && data.None?
    ensures v.Deal? ==> data.Some? && v.image == data.value.productImgUri
                        && v.savings == data.value.savingsPercentage && v.oldPrice == data.value.flipkartPrice
                        && v.newPrice == ShownDealPrice(data.value) && v.timer == TimerLabel(count)
  {
    if !visible || !IsProductPage(url) then Hidden
    else if loading then Spinner
    else if data.Some? then
      var d := data.value;
      Deal(TimerLabel(count), d.productImgUri, d.savingsPercentage, d.flipkartPrice, ShownDealPrice(d))
    else Unavailable
  }
}
