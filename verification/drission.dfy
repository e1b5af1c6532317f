/**
 The DrissionPage harness: `compute_metrics` builds the record from the page html,
 the response bytes and an optional statically fetched baseline, and
 `fetch_and_evaluate` decides which of those exist. Unlike the spider it has no
 fallback: an exception inside `compute_metrics` means no record is written.
 */
module Drission {
  import opened Wrappers
  import opened Dom
  import opened TreeEdit
  import opened Metrics

  /** The exceptions `compute_metrics` can raise. */
  datatype Failure =
    | NoneHasNoLower      // chardet reported `encoding: None`, and `None.lower()` raises
    | NoTreeToCompare     // `simple_distance` was handed `None` for a document that did not convert

  /** Python truthiness of `static_html`: present and non-empty. */
  predicate HasBaseline(staticHtml: Option<string>) {
    staticHtml.Some? && |staticHtml.value| > 0
  }

  /**
   The encoding check: a missing key reads as the empty name, a mismatch; a null
   name cannot be lower-cased and raises; any other name is a mismatch unless it
   spells "utf-8" in some letter case.
   */
  function EncodingError(d: Detection): (r: Result<nat, Failure>)
    ensures r.Err? <==> d.NullValue?
    ensures r.Err? ==> r.error == NoneHasNoLower
    ensures d.KeyAbsent? ==> r == Ok(1)
    ensures d.Named? ==> r.Ok? && r.value <= 1 && (r.value == 0 <==> IsUtf8Spelling(d.name))
  {
    match d
    case KeyAbsent => Ok(NameMismatch(""))
    case NullValue => Err(NoneHasNoLower)
    case Named(name) => Ok(NameMismatch(name))
  }

  /** The DOM-distance step: 0 without a baseline, else the tree distance, which raises without trees. */
  function DomDistance(html: string, staticHtml: Option<string>, lxmlHtml: string -> Option<Element>): (r: Result<nat, Failure>)
    ensures !HasBaseline(staticHtml) ==> r == Ok(0)
    ensures HasBaseline(staticHtml) ==>
      (r.Ok? <==> ElementToNode(lxmlHtml(staticHtml.value)).Some? && ElementToNode(lxmlHtml(html)).Some?)
    ensures r.Err? ==> r.error == NoTreeToCompare
    ensures HasBaseline(staticHtml) && r.Ok? ==>
      r.value == TreeDistance(ElementToNode(lxmlHtml(staticHtml.value)).value, ElementToNode(lxmlHtml(html)).value)
  {
    if HasBaseline(staticHtml) then
      var staticNode := ElementToNode(lxmlHtml(staticHtml.value));
      var dynNode := ElementToNode(lxmlHtml(html));
      if staticNode.Some? && dynNode.Some? then Ok(TreeDistance(staticNode.value, dynNode.value))
      else Err(NoTreeToCompare)
    else Ok(0)
  }

  /** With a baseline, the DOM distance is 0 exactly when both documents convert to the same tree. */
  lemma DomDistanceZeroIffSameTree(html: string, staticHtml: string, lxmlHtml: string -> Option<Element>)
    requires |staticHtml| > 0
    requires DomDistance(html, Some(staticHtml), lxmlHtml).Ok?
    ensures DomDistance(html, Some(staticHtml), lxmlHtml).value == 0
        <==> ElementToNode(lxmlHtml(html)) == ElementToNode(lxmlHtml(staticHtml))
  {
  }

  /** When both page and baseline are non-empty, swapping them does not change the DOM distance. */
  lemma DomDistanceSymmetric(html: string, staticHtml: string, lxmlHtml: string -> Option<Element>)
    requires |staticHtml| > 0 && |html| > 0
    ensures DomDistance(html, Some(staticHtml), lxmlHtml) == DomDistance(staticHtml, Some(html), lxmlHtml)
  {
    var sn := ElementToNode(lxmlHtml(staticHtml));
    var dn := ElementToNode(lxmlHtml(html));
    if sn.Some? && dn.Some? {
      DistSymmetric([sn.value], [dn.value]);
    }
  }

  /** `js_ratio`: 1.0 without a baseline, else page length over baseline length, rounded. */
  function JsRatio(html: string, staticHtml: Option<string>): (r: real)
    ensures !HasBaseline(staticHtml) ==> r == 1.0
    ensures HasBaseline(staticHtml) ==> -0.0005 <= r - Fraction(|html|, |staticHtml.value|) <= 0.0005
    ensures HasBaseline(staticHtml) && |html| == |staticHtml.value| ==> r == 1.0
    ensures HasBaseline(staticHtml) && |html| <= |staticHtml.value| ==> 0.0 <= r <= 1.0
  {
    Round3ZeroOne();
    if HasBaseline(staticHtml) then Round3(Fraction(|html|, |staticHtml.value|)) else 1.0
  }

  /** `compute_metrics`: the record for a page, or the exception that stops it being written. */
  function ComputeMetrics(html: string, bodyBytes: seq<byte>, loadTime: real, mode: string,
                          staticHtml: Option<string>, libs: Libraries): (r: Result<Record, Failure>)
    ensures r.Err? <==>
      || libs.detect(bodyBytes).NullValue?
      || (HasBaseline(staticHtml) &&
          (ElementToNode(libs.lxmlHtml(staticHtml.value)).None? || ElementToNode(libs.lxmlHtml(html)).None?))
    ensures r.Err? ==> (r.error == NoneHasNoLower <==> libs.detect(bodyBytes).NullValue?)
    ensures r.Ok? ==>
      && r.value.url.None?
      && r.value.mode == mode
      && r.value.totalLength == |html|
      && r.value.encodingError <= 1
      && 0.0 <= r.value.garbageRate <= 1.0
      && 0.0 <= r.value.mainRatio
    ensures r.Ok? ==>
      && r.value.semanticTags == SemanticTags(libs.soup(html))
      && r.value.adTags == AdTags(libs.soup(html))
      && r.value.mainRatio == Round3(MainRatio(MainText(libs.extract(html)), html))
      && r.value.simhash == SimValue(MainText(libs.extract(html)), libs.simhash)
      && r.value.garbageRate == Round3(GarbageRate(html, libs.isCategoryC))
      && r.value.loadTime == Round3(loadTime)
      && r.value.jsRatio == JsRatio(html, staticHtml)
      && r.value.encodingError == EncodingError(libs.detect(bodyBytes)).value
      && r.value.domDistance == DomDistance(html, staticHtml, libs.lxmlHtml).value
      && (r.value.distanceByZss <==> HasBaseline(staticHtml))
    ensures r.Ok? && !HasBaseline(staticHtml) ==> r.value.domDistance == 0 && r.value.jsRatio == 1.0
    ensures r.Ok? && HasBaseline(staticHtml) && html == staticHtml.value ==> r.value.domDistance == 0 && r.value.jsRatio == 1.0
  {
    var totalLen := |html|;
    var doc := libs.soup(html);
    var mainText := MainText(libs.extract(html));
    var encodingError := EncodingError(libs.detect(bodyBytes));
    var domDistance := DomDistance(html, staticHtml, libs.lxmlHtml);
    Round3ZeroOne();
    if encodingError.Err? then Err(encodingError.error)
    else if domDistance.Err? then Err(domDistance.error)
    else
      assert HasBaseline(staticHtml) && html == staticHtml.value ==> domDistance.value == 0 by {
        if HasBaseline(staticHtml) && html == staticHtml.value {
          DistSelf([ElementToNode(libs.lxmlHtml(html)).value]);
        }
      }
      Ok(Record(
        url := None,
        mode := mode,
        totalLength := totalLen,
        semanticTags := SemanticTags(doc),
        mainRatio := Round3(MainRatio(mainText, html)),
        adTags := AdTags(doc),
        simhash := SimValue(mainText, libs.simhash),
        domDistance := domDistance.value,
        distanceByZss := HasBaseline(staticHtml),
        encodingError := encodingError.value,
        garbageRate := Round3(GarbageRate(html, libs.isCategoryC)),
        jsRatio := JsRatio(html, staticHtml),
        loadTime := Round3(loadTime)))
  }

  /** The one response of the fetch in "http" mode. */
  datatype HttpResponse = HttpResponse(text: string, content: seq<byte>)

  /**
   `fetch_and_evaluate`: a baseline is requested only outside "http" mode (`None`
   when that request raised); the page comes from the HTTP response in "http" mode
   and from the browser otherwise. `Err` means no record is appended.
   */
  function FetchAndEvaluate(url: string, mode: string, baseline: Option<string>, response: HttpResponse,
                            browserHtml: string, elapsed: real, libs: Libraries): (r: Result<Record, Failure>)
    ensures r.Ok? ==> r.value.url == Some(url) && r.value.mode == mode
    ensures mode == "http" ==>
      && (r.Ok? <==> !libs.detect(response.content).NullValue?)
      && (r.Ok? ==> r.value.domDistance == 0 && r.value.jsRatio == 1.0 && r.value.totalLength == |response.text|)
    ensures mode != "http" && r.Ok? ==> r.value.totalLength == |browserHtml|
    ensures mode != "http" && !HasBaseline(baseline) ==>
      (r.Ok? <==> !libs.detect(libs.encodeUtf8(browserHtml)).NullValue?)
    ensures mode != "http" && HasBaseline(baseline) ==>
      (r.Ok? <==>
        && !libs.detect(libs.encodeUtf8(browserHtml)).NullValue?
        && ElementToNode(libs.lxmlHtml(baseline.value)).Some?
        && ElementToNode(libs.lxmlHtml(browserHtml)).Some?)
    ensures r.Ok? ==>
      var html := if mode == "http" then response.text else browserHtml;
      var bytes := if mode == "http" then response.content else libs.encodeUtf8(browserHtml);
      && r.value.semanticTags == SemanticTags(libs.soup(html))
      && r.value.adTags == AdTags(libs.soup(html))
      && r.value.mainRatio == Round3(MainRatio(MainText(libs.extract(html)), html))
      && r.value.simhash == SimValue(MainText(libs.extract(html)), libs.simhash)
      && r.value.garbageRate == Round3(GarbageRate(html, libs.isCategoryC))
      && r.value.encodingError == EncodingError(libs.detect(bytes)).value
      && r.value.loadTime == Round3(elapsed)
    ensures mode != "http" && r.Ok? ==>
      && r.value.domDistance == DomDistance(browserHtml, baseline, libs.lxmlHtml).value
      && r.value.jsRatio == JsRatio(browserHtml, baseline)
    ensures r.Ok? ==> (r.value.distanceByZss <==> mode != "http" && HasBaseline(baseline))
  {
    var staticHtml := if mode != "http" then baseline else None;
    var html := if mode == "http" then response.text else browserHtml;
    var bodyBytes := if mode == "http" then response.content else libs.encodeUtf8(browserHtml);
    var metrics := ComputeMetrics(html, bodyBytes, elapsed, mode, staticHtml, libs);
    if metrics.Ok? then Ok(metrics.value.(url := Some(url))) else metrics
  }
}
