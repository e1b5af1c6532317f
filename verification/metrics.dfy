/**
 The metric arithmetic both harnesses share, line for line: semantic and ad tag
 counts, main-text ratio, simhash gate, garbage rate, the encoding-name test, the
 12-field record, and Python's `round(x, 3)`. Library results arrive through
 `Libraries`.
 */
module Metrics {
  import opened Wrappers
  import opened Dom

  type byte = x: int | 0 <= x < 256

  /** Simhash fingerprints are 64-bit. */
  type Fingerprint = x: int | 0 <= x < 0x1_0000_0000_0000_0000

  /** The `encoding` entry of chardet's result dictionary. */
  datatype Detection = KeyAbsent | NullValue | Named(name: string)

  /**
   The third-party calls, as total functions of their inputs: `etree.HTML`,
   `BeautifulSoup(html, "lxml")` (its top-level nodes), `trafilatura.extract`,
   `Simhash(text).value`, `chardet.detect`, `str.encode("utf-8")` and
   `unicodedata.category(c).startswith("C")`.
   */
  datatype Libraries = Libraries(
    lxmlHtml: string -> Option<Element>,
    soup: string -> seq<Element>,
    extract: string -> Option<string>,
    simhash: string -> Fingerprint,
    detect: seq<byte> -> Detection,
    encodeUtf8: string -> seq<byte>,
    isCategoryC: char -> bool)

  // ---------------------------------------------------------------- rounding

  /**
   Python's `round(x, 3)`: the nearest multiple of 1/1000, ties to the even
   multiple.
   */
  function Round3(x: real): (r: real)
    ensures -0.0005 <= r - x <= 0.0005
    ensures (r * 1000.0).Floor as real == r * 1000.0
    ensures 0.0 <= x ==> 0.0 <= r
    ensures x <= 1.0 ==> r <= 1.0
  {
    var q := x * 1000.0;
    var f := q.Floor;
    var frac := q - f as real;
    var n := if frac < 0.5 then f else if frac > 0.5 then f + 1 else if f % 2 == 0 then f else f + 1;
    assert (n as real / 1000.0) * 1000.0 == n as real;
    n as real / 1000.0
  }

  /** Rounding leaves the sentinels 0 and 1 as they are. */
  lemma Round3ZeroOne()
    ensures Round3(0.0) == 0.0 && Round3(1.0) == 1.0
  {
  }

  // ------------------------------------------------------- document counts

  /** The number of elements of a forest, at any depth, that satisfy `p`. */
  function CountWhere(f: seq<Element>, p: Element -> bool): nat {
    if |f| == 0 then 0 else CountWhere(f[..|f| - 1], p) + CountIn(f[|f| - 1], p)
  }

  function CountIn(e: Element, p: Element -> bool): nat {
    (if p(e) then 1 else 0) + CountWhere(e.children, p)
  }

  /** The elements of a forest in document order (pre-order). */
  function Flatten(f: seq<Element>): seq<Element> {
    if |f| == 0 then [] else Flatten(f[..|f| - 1]) + FlattenOne(f[|f| - 1])
  }

  function FlattenOne(e: Element): seq<Element> {
    [e] + Flatten(e.children)
  }

  /** The number of entries of a list that satisfy `p`. */
  function Occurrences(s: seq<Element>, p: Element -> bool): (n: nat)
    ensures n <= |s|
  {
    if |s| == 0 then 0 else Occurrences(s[..|s| - 1], p) + (if p(s[|s| - 1]) then 1 else 0)
  }

  lemma {:induction false} OccurrencesAppend(a: seq<Element>, b: seq<Element>, p: Element -> bool)
    ensures Occurrences(a + b, p) == Occurrences(a, p) + Occurrences(b, p)
    decreases |b|
  {
    if |b| == 0 {
      assert a + b == a;
    } else {
      assert (a + b)[..|a + b| - 1] == a + b[..|b| - 1];
      OccurrencesAppend(a, b[..|b| - 1], p);
    }
  }

  /** Counting in the tree is counting along the document-order listing. */
  lemma {:induction false} CountWhereIsOccurrences(f: seq<Element>, p: Element -> bool)
    ensures CountWhere(f, p) == Occurrences(Flatten(f), p)
    decreases f, 1
  {
    if |f| > 0 {
      CountWhereIsOccurrences(f[..|f| - 1], p);
      CountInIsOccurrences(f[|f| - 1], p);
      OccurrencesAppend(Flatten(f[..|f| - 1]), FlattenOne(f[|f| - 1]), p);
    }
  }

  lemma {:induction false} CountInIsOccurrences(e: Element, p: Element -> bool)
    ensures CountIn(e, p) == Occurrences(FlattenOne(e), p)
    decreases e, 0
  {
    CountWhereIsOccurrences(e.children, p);
    OccurrencesAppend([e], Flatten(e.children), p);
    assert [e][..0] == [];
  }

  /** Two rules counted separately add up to the elements matching either, plus those matching both. */
  lemma {:induction false} OccurrencesInclusionExclusion(
    s: seq<Element>, p: Element -> bool, q: Element -> bool, either: Element -> bool, both: Element -> bool)
    requires forall e :: either(e) == (p(e) || q(e))
    requires forall e :: both(e) == (p(e) && q(e))
    ensures Occurrences(s, p) + Occurrences(s, q) == Occurrences(s, either) + Occurrences(s, both)
    decreases |s|
  {
    if |s| > 0 {
      OccurrencesInclusionExclusion(s[..|s| - 1], p, q, either, both);
    }
  }

  const SemanticNames: set<string> := {"p", "article", "section", "header", "main"}

  /** The element is one the semantic-tag search finds: tagged with one of `SemanticNames`. */
  predicate IsSemantic(e: Element) {
    e.tag.Some? && e.tag.value in SemanticNames
  }

  /** The element is one the first ad search finds: an iframe or an ins element. */
  predicate IsIframeOrIns(e: Element) {
    e.tag.Some? && (e.tag.value == "iframe" || e.tag.value == "ins")
  }

  /**
   The element is one the second ad search finds: its class attribute string
   begins with "ad-" (the attribute-prefix selector of section 6.3.2 of Selectors
   Level 3).
   */
  predicate HasAdClass(e: Element) {
    e.tag.Some? && e.classAttr.Some? && |e.classAttr.value| >= 3 && e.classAttr.value[..3] == "ad-"
  }

  predicate IsAdCandidate(e: Element) {
    IsIframeOrIns(e) || HasAdClass(e)
  }

  predicate IsDoubleAd(e: Element) {
    IsIframeOrIns(e) && HasAdClass(e)
  }

  /** `semantic_tags`: the elements of the document with one of the five semantic tags. */
  function SemanticTags(doc: seq<Element>): (n: nat)
    ensures n == Occurrences(Flatten(doc), IsSemantic)
    ensures n <= |Flatten(doc)|
  {
    CountWhereIsOccurrences(doc, IsSemantic);
    CountWhere(doc, IsSemantic)
  }

  /** `ad_tags`: the iframe/ins count plus the `ad-` class count. */
  function AdTags(doc: seq<Element>): (n: nat)
    ensures n == Occurrences(Flatten(doc), IsIframeOrIns) + Occurrences(Flatten(doc), HasAdClass)
  {
    CountWhereIsOccurrences(doc, IsIframeOrIns);
    CountWhereIsOccurrences(doc, HasAdClass);
    CountWhere(doc, IsIframeOrIns) + CountWhere(doc, HasAdClass)
  }

  /**
   The ad count is the number of elements matching either rule plus the number
   matching both: an element matching both is counted twice.
   */
  lemma AdTagsDoubleCounts(doc: seq<Element>)
    ensures AdTags(doc) == Occurrences(Flatten(doc), IsAdCandidate) + Occurrences(Flatten(doc), IsDoubleAd)
    ensures AdTags(doc) <= 2 * |Flatten(doc)|
  {
    var s := Flatten(doc);
    OccurrencesInclusionExclusion(s, IsIframeOrIns, HasAdClass, IsAdCandidate, IsDoubleAd);
  }

  // ------------------------------------------------------------ text ratios

  /** `n / d` as an exact quotient. */
  function Fraction(n: nat, d: nat): (r: real)
    requires d > 0
    ensures r * d as real == n as real
    ensures 0.0 <= r
    ensures n <= d ==> r <= 1.0
    ensures n == 0 ==> r == 0.0
    ensures n == d ==> r == 1.0
  {
    if n == d then 1.0 else n as real / d as real
  }

  /** The main text: the extractor's result, or the empty text when it found none. */
  function MainText(extracted: Option<string>): (t: string)
    ensures extracted.None? ==> t == ""
    ensures extracted.Some? ==> t == extracted.value
  {
    if extracted.Some? then extracted.value else ""
  }

  /** The unrounded `main_ratio`: main-text length over html length, 0 for empty html. */
  function MainRatio(mainText: string, html: string): (r: real)
    ensures |html| == 0 ==> r == 0.0
    ensures |html| > 0 ==> r * |html| as real == |mainText| as real
    ensures 0.0 <= r
    ensures |mainText| <= |html| ==> r <= 1.0
  {
    if |html| > 0 then Fraction(|mainText|, |html|) else 0.0
  }

  /** The fingerprint field: Simhash's value of the main text, or 0 when there is no main text. */
  function SimValue(mainText: string, simhash: string -> Fingerprint): (v: Fingerprint)
    ensures mainText == "" ==> v == 0
    ensures mainText != "" ==> v == simhash(mainText)
  {
    if |mainText| > 0 then simhash(mainText) else 0
  }

  /** The number of characters of `html` in Unicode category C. */
  function GarbageChars(html: string, isC: char -> bool): (n: nat)
    ensures n <= |html|
    ensures n == 0 <==> forall i :: 0 <= i < |html| ==> !isC(html[i])
    ensures n == |html| <==> forall i :: 0 <= i < |html| ==> isC(html[i])
  {
    if |html| == 0 then 0
    else GarbageChars(html[..|html| - 1], isC) + (if isC(html[|html| - 1]) then 1 else 0)
  }

  /** The unrounded `garbage_rate`: category-C characters over all characters, 0 for empty html. */
  function GarbageRate(html: string, isC: char -> bool): (r: real)
    ensures 0.0 <= r <= 1.0
    ensures |html| == 0 ==> r == 0.0
    ensures (forall i :: 0 <= i < |html| ==> !isC(html[i])) ==> r == 0.0
    ensures |html| > 0 && (forall i :: 0 <= i < |html| ==> isC(html[i])) ==> r == 1.0
    ensures |html| > 0 ==> r * |html| as real == GarbageChars(html, isC) as real
  {
    if |html| > 0 then Fraction(GarbageChars(html, isC), |html|) else 0.0
  }

  // ----------------------------------------------------------- encodings

  predicate IsUpper(c: char) {
    'A' <= c <= 'Z'
  }

  /**
   Python's `str.lower` restricted to ASCII: upper-case letters become their
   lower-case partners, every other character is kept.
   */
  function AsciiLower(s: string): (r: string)
    ensures |r| == |s|
    ensures forall i :: 0 <= i < |r| ==> !IsUpper(r[i])
    ensures forall i :: 0 <= i < |s| && !IsUpper(s[i]) ==> r[i] == s[i]
    ensures forall i :: 0 <= i < |s| && IsUpper(s[i]) ==> 'a' <= r[i] <= 'z' && r[i] as int - s[i] as int == 'a' as int - 'A' as int
  {
    seq(|s|, i requires 0 <= i < |s| => if 'A' <= s[i] <= 'Z' then (s[i] as int + 32) as char else s[i])
  }

  /** The name chardet must report for the page to count as correctly encoded. */
  const Declared: string := "utf-8"

  /** The spellings of "utf-8" that differ only in the case of its letters. */
  predicate IsUtf8Spelling(name: string) {
    && |name| == 5
    && name[0] in {'u', 'U'}
    && name[1] in {'t', 'T'}
    && name[2] in {'f', 'F'}
    && name[3] == '-'
    && name[4] == '8'
  }

  /** The encoding flag of the record: 1 when the lower-cased name is not "utf-8", else 0. */
  function NameMismatch(name: string): (e: nat)
    ensures e <= 1
    ensures e == 0 <==> IsUtf8Spelling(name)
  {
    LowerIsUtf8Iff(name);
    if AsciiLower(name) != Declared then 1 else 0
  }

  /** Lower-casing gives "utf-8" for exactly the eight case spellings of "utf-8". */
  lemma LowerIsUtf8Iff(name: string)
    ensures AsciiLower(name) == Declared <==> IsUtf8Spelling(name)
  {
    var low := AsciiLower(name);
    if IsUtf8Spelling(name) {
      assert low[0] == 'u' && low[1] == 't' && low[2] == 'f' && low[3] == '-' && low[4] == '8';
      assert low == Declared;
    }
    if low == Declared {
      assert low[0] == 'u' && low[1] == 't' && low[2] == 'f' && low[3] == '-' && low[4] == '8';
      assert IsUpper(name[0]) ==> name[0] == 'U';
      assert IsUpper(name[1]) ==> name[1] == 'T';
      assert IsUpper(name[2]) ==> name[2] == 'F';
    }
  }

  lemma Utf8Spellings()
    ensures NameMismatch("utf-8") == 0
    ensures NameMismatch("UTF-8") == 0
    ensures NameMismatch("") == 1
  {
  }

  // -------------------------------------------------------------- record

  /** The metrics record both harnesses write, one field per key. */
  datatype Record = Record(
    url: Option<string>,
    mode: string,
    totalLength: nat,
    semanticTags: nat,
    mainRatio: real,
    adTags: nat,
    simhash: Fingerprint,
    domDistance: nat,
    distanceByZss: bool,    // the distance came from `simple_distance`, which returns a float
    encodingError: nat,
    garbageRate: real,
    jsRatio: real,
    loadTime: real)

  /** A JSON value of the written line. */
  datatype Json = JNull | JStr(s: string) | JInt(i: int) | JNum(x: real)

  const RecordKeys: set<string> := {
    "url", "mode", "total_length", "semantic_tags", "main_ratio", "ad_tags",
    "simhash", "dom_distance", "encoding_error", "garbage_rate", "js_ratio", "load_time"}

  /**
   A ratio field as Python holds it: both harnesses store the integer 0 for
   `main_ratio` and `garbage_rate` when the html is empty, and a rounded float
   otherwise.
   */
  function RatioValue(totalLength: nat, x: real): (j: Json)
    ensures totalLength == 0 ==> j == JInt(0)
    ensures totalLength > 0 ==> j == JNum(x)
  {
    if totalLength == 0 then JInt(0) else JNum(x)
  }

  /**
   The DOM distance as Python holds it: `simple_distance` fills a float table and
   returns a float, while the "http" sentinel, the no-baseline sentinel and the
   node-count fallback are integers.
   */
  function DistanceValue(byZss: bool, d: nat): (j: Json)
    ensures byZss ==> j == JNum(d as real)
    ensures !byZss ==> j == JInt(d)
  {
    if byZss then JNum(d as real) else JInt(d)
  }

  /** The dictionary serialised as one JSON line: every field under its key. */
  function ToJson(r: Record): (m: map<string, Json>)
    ensures m.Keys == RecordKeys
    ensures m["url"] == (if r.url.Some? then JStr(r.url.value) else JNull)
    ensures m["mode"] == JStr(r.mode)
    ensures m["total_length"] == JInt(r.totalLength)
    ensures m["semantic_tags"] == JInt(r.semanticTags)
    ensures m["main_ratio"] == (if r.totalLength == 0 then JInt(0) else JNum(r.mainRatio))
    ensures m["ad_tags"] == JInt(r.adTags)
    ensures m["simhash"] == JInt(r.simhash)
    ensures m["dom_distance"] == (if r.distanceByZss then JNum(r.domDistance as real) else JInt(r.domDistance))
    ensures m["encoding_error"] == JInt(r.encodingError)
    ensures m["garbage_rate"] == (if r.totalLength == 0 then JInt(0) else JNum(r.garbageRate))
    ensures m["js_ratio"] == JNum(r.jsRatio)
    ensures m["load_time"] == JNum(r.loadTime)
  {
    map[
      "url" := (if r.url.Some? then JStr(r.url.value) else JNull),
      "mode" := JStr(r.mode),
      "total_length" := JInt(r.totalLength),
      "semantic_tags" := JInt(r.semanticTags),
      "main_ratio" := RatioValue(r.totalLength, r.mainRatio),
      "ad_tags" := JInt(r.adTags),
      "simhash" := JInt(r.simhash),
      "dom_distance" := DistanceValue(r.distanceByZss, r.domDistance),
      "encoding_error" := JInt(r.encodingError),
      "garbage_rate" := RatioValue(r.totalLength, r.garbageRate),
      "js_ratio" := JNum(r.jsRatio),
      "load_time" := JNum(r.loadTime)]
  }
}
