/**
 The Scrapy spider (`QualitySpider`): `parse` takes the rendered page and the
 in-page script ratio, and `_compute_and_write` adds the DOM distance, the
 encoding and garbage checks and builds the record.
 */
module Spider {
  import opened Wrappers
  import opened Dom
  import opened TreeEdit
  import opened Metrics

  /** What the `page.evaluate` script counts: all elements, and the script elements. */
  datatype ElementCounts = ElementCounts(total: nat, scripts: nat)

  /**
   The Playwright page `parse` receives; a field is `None` when the call that
   produces it (`page.content()`, `page.evaluate(...)`) raised.
   */
  datatype BrowserPage = BrowserPage(content: Option<string>, evaluation: Option<ElementCounts>)

  /** `start_requests` asks scrapy-playwright for a page in every mode but "http". */
  predicate UsesBrowser(mode: string) {
    mode != "http"
  }

  /** The in-page script: 1.0 for an empty document, else scripts over elements. */
  function InPageJsRatio(c: ElementCounts): (r: real)
    ensures c.total == 0 ==> r == 1.0
    ensures c.total > 0 ==> r * c.total as real == c.scripts as real
    ensures c.scripts <= c.total ==> 0.0 <= r <= 1.0
  {
    if c.total == 0 then 1.0 else Fraction(c.scripts, c.total)
  }

  /** The html the metrics are computed on, and the unrounded `js_ratio`. */
  datatype Rendering = Rendering(html: string, jsRatio: real)

  /** Step 2 of `parse`: the rendered DOM and the script ratio, with their fallbacks. */
  function Render(rawHtml: string, page: Option<BrowserPage>): (r: Rendering)
    ensures page.None? ==> r == Rendering(rawHtml, 1.0)
    ensures page.Some? ==>
      && r.html == (if page.value.content.Some? then page.value.content.value else rawHtml)
      && (page.value.evaluation.None? ==> r.jsRatio == 1.0)
      && (page.value.evaluation.Some? ==> r.jsRatio == InPageJsRatio(page.value.evaluation.value))
  {
    match page
    case None => Rendering(rawHtml, 1.0)
    case Some(p) =>
      var html := if p.content.Some? then p.content.value else rawHtml;
      var js := if p.evaluation.Some? then InPageJsRatio(p.evaluation.value) else 1.0;
      Rendering(html, js)
  }

  /** A converted tree as a forest: empty when there is no tree. */
  function AsForest(t: Option<Tree>): (f: seq<Tree>)
    ensures ForestSize(f) == if t.Some? then TreeSize(t.value) else 0
  {
    if t.Some? then
      assert [t.value][..0] == [];
      [t.value]
    else []
  }

  /**
   When either document fails to convert, the difference of the node counts the
   fallback reports is exactly the edit distance to or from the empty forest.
   */
  lemma FallbackIsForestDistance(staticDom: Option<Element>, dynamicDom: Option<Element>)
    requires ElementToNode(staticDom).None? || ElementToNode(dynamicDom).None?
    ensures var a := CountNodes(staticDom);
            var b := CountNodes(dynamicDom);
            (if a >= b then a - b else b - a)
              == Dist(AsForest(ElementToNode(staticDom)), AsForest(ElementToNode(dynamicDom)))
  {
    var sn := ElementToNode(staticDom);
    var dn := ElementToNode(dynamicDom);
    CountNodesIsTreeSize(staticDom);
    CountNodesIsTreeSize(dynamicDom);
    if sn.Some? {
      DistToEmpty(AsForest(sn));
    } else if dn.Some? {
      DistToEmpty(AsForest(dn));
      DistSymmetric(AsForest(dn), []);
    }
  }

  /**
   The DOM distance of `_compute_and_write`: 0 in "http" mode; otherwise the tree
   distance between the raw and rendered documents when both convert, and the
   difference of their node counts when either does not. Either way it is the
   edit distance between the two converted documents, a document that does not
   convert counting as the empty forest.
   */
  function DomDistance(mode: string, rawHtml: string, renderedHtml: string, lxmlHtml: string -> Option<Element>): (r: nat)
    ensures mode == "http" ==> r == 0
    ensures mode != "http" ==>
      r == Dist(AsForest(ElementToNode(lxmlHtml(rawHtml))), AsForest(ElementToNode(lxmlHtml(renderedHtml))))
  {
    if mode == "http" then 0
    else
      var staticDom := lxmlHtml(rawHtml);
      var dynamicDom := lxmlHtml(renderedHtml);
      var sn := ElementToNode(staticDom);
      var dn := ElementToNode(dynamicDom);
      if sn.Some? && dn.Some? then TreeDistance(sn.value, dn.value)
      else
        FallbackIsForestDistance(staticDom, dynamicDom);
        var a := CountNodes(staticDom);
        var b := CountNodes(dynamicDom);
        if a >= b then a - b else b - a
  }

  /**
   The DOM distance is 0 exactly when the two documents convert to the same tree
   or both fail to convert, and it does not depend on which document is raw.
   */
  lemma DomDistanceZeroIffSameTree(mode: string, rawHtml: string, renderedHtml: string, lxmlHtml: string -> Option<Element>)
    requires mode != "http"
    ensures DomDistance(mode, rawHtml, renderedHtml, lxmlHtml) == 0
        <==> ElementToNode(lxmlHtml(rawHtml)) == ElementToNode(lxmlHtml(renderedHtml))
    ensures DomDistance(mode, rawHtml, renderedHtml, lxmlHtml) == DomDistance(mode, renderedHtml, rawHtml, lxmlHtml)
  {
    var sn := ElementToNode(lxmlHtml(rawHtml));
    var dn := ElementToNode(lxmlHtml(renderedHtml));
    DistZeroIff(AsForest(sn), AsForest(dn));
    DistSymmetric(AsForest(sn), AsForest(dn));
    if AsForest(sn) == AsForest(dn) {
      if sn.Some? {
        assert AsForest(sn)[0] == sn.value;
      }
    }
  }

  /**
   The node-count difference the fallback reports never exceeds the tree distance,
   and the distance never exceeds the total node count.
   */
  lemma DomDistanceBounds(mode: string, rawHtml: string, renderedHtml: string, lxmlHtml: string -> Option<Element>)
    requires mode != "http"
    ensures var a := CountNodes(lxmlHtml(rawHtml));
            var b := CountNodes(lxmlHtml(renderedHtml));
            var d := DomDistance(mode, rawHtml, renderedHtml, lxmlHtml);
            a - b <= d && b - a <= d && d <= a + b
  {
    var sn := ElementToNode(lxmlHtml(rawHtml));
    var dn := ElementToNode(lxmlHtml(renderedHtml));
    CountNodesIsTreeSize(lxmlHtml(rawHtml));
    CountNodesIsTreeSize(lxmlHtml(renderedHtml));
  }

  /** A document compared with itself is at distance 0, whatever the mode. */
  lemma IdenticalDocumentsHaveNoDistance(mode: string, html: string, lxmlHtml: string -> Option<Element>)
    ensures DomDistance(mode, html, html, lxmlHtml) == 0
  {
    if mode != "http" {
      DomDistanceZeroIffSameTree(mode, html, html, lxmlHtml);
    }
  }

  /** The encoding check: a missing or null name is a mismatch, and so is any spelling other than "utf-8" in any letter case. */
  function EncodingError(d: Detection): (e: nat)
    ensures e <= 1
    ensures d.KeyAbsent? || d.NullValue? ==> e == 1
    ensures d.Named? ==> (e == 0 <==> IsUtf8Spelling(d.name))
  {
    var name := if d.Named? then d.name else "";
    NameMismatch(name)
  }

  /** The html the record measures: the browser's content when a browser page was asked for and delivered it, else the raw response. */
  function MeasuredHtml(mode: string, rawHtml: string, browser: BrowserPage): (h: string)
    ensures UsesBrowser(mode) && browser.content.Some? ==> h == browser.content.value
    ensures !(UsesBrowser(mode) && browser.content.Some?) ==> h == rawHtml
  {
    Render(rawHtml, if UsesBrowser(mode) then Some(browser) else None).html
  }

  /** `parse` followed by `_compute_and_write`: the record the spider appends for one response. */
  function Evaluate(url: string, mode: string, rawHtml: string, browser: BrowserPage, elapsed: real, libs: Libraries): (r: Record)
    ensures r.url == Some(url) && r.mode == mode
    ensures var h := MeasuredHtml(mode, rawHtml, browser);
      && r.totalLength == |h|
      && r.semanticTags == SemanticTags(libs.soup(h))
      && r.adTags == AdTags(libs.soup(h))
      && r.mainRatio == Round3(MainRatio(MainText(libs.extract(h)), h))
      && r.simhash == SimValue(MainText(libs.extract(h)), libs.simhash)
      && r.garbageRate == Round3(GarbageRate(h, libs.isCategoryC))
      && r.encodingError == EncodingError(libs.detect(libs.encodeUtf8(h)))
      && r.domDistance == DomDistance(mode, rawHtml, h, libs.lxmlHtml)
      && (r.distanceByZss <==> mode != "http" && ElementToNode(libs.lxmlHtml(rawHtml)).Some? && ElementToNode(libs.lxmlHtml(h)).Some?)
    ensures r.loadTime == Round3(elapsed)
    ensures r.encodingError <= 1
    ensures 0.0 <= r.garbageRate <= 1.0
    ensures 0.0 <= r.mainRatio
    ensures !UsesBrowser(mode) ==> r.totalLength == |rawHtml| && r.domDistance == 0 && r.jsRatio == 1.0
    ensures UsesBrowser(mode) && browser.content.None? ==> r.totalLength == |rawHtml| && r.domDistance == 0
    ensures UsesBrowser(mode) && browser.evaluation.None? ==> r.jsRatio == 1.0
    ensures UsesBrowser(mode) && browser.evaluation.Some? ==> r.jsRatio == Round3(InPageJsRatio(browser.evaluation.value))
    ensures UsesBrowser(mode) && browser.evaluation.Some? && browser.evaluation.value.scripts <= browser.evaluation.value.total
            ==> 0.0 <= r.jsRatio <= 1.0
  {
    var page := if UsesBrowser(mode) then Some(browser) else None;
    var rendering := Render(rawHtml, page);
    var html := rendering.html;
    var doc := libs.soup(html);
    var mainText := MainText(libs.extract(html));
    Round3ZeroOne();
    IdenticalDocumentsHaveNoDistance(mode, rawHtml, libs.lxmlHtml);
    Record(
      url := Some(url),
      mode := mode,
      totalLength := |html|,
      semanticTags := SemanticTags(doc),
      mainRatio := Round3(MainRatio(mainText, html)),
      adTags := AdTags(doc),
      simhash := SimValue(mainText, libs.simhash),
      domDistance := DomDistance(mode, rawHtml, html, libs.lxmlHtml),
      distanceByZss := mode != "http" && ElementToNode(libs.lxmlHtml(rawHtml)).Some? && ElementToNode(libs.lxmlHtml(html)).Some?,
      encodingError := EncodingError(libs.detect(libs.encodeUtf8(html))),
      garbageRate := Round3(GarbageRate(html, libs.isCategoryC)),
      jsRatio := Round3(rendering.jsRatio),
      loadTime := Round3(elapsed))
  }

  /**
   An "http" page whose parse is `<html><body><p>...</p></body></html>`, reported as
   "utf-8" and free of control characters: one semantic tag, no ad tags, no DOM
   distance, no encoding error, no garbage, and the script-ratio sentinel.
   */
  lemma HttpPageScenario(url: string, html: string, browser: BrowserPage, elapsed: real, libs: Libraries)
    requires libs.soup(html) == [Element(Some("html"), None, [Element(Some("body"), None, [Element(Some("p"), None, [])])])]
    requires libs.detect(libs.encodeUtf8(html)) == Named("utf-8")
    requires forall i :: 0 <= i < |html| ==> !libs.isCategoryC(html[i])
    ensures var r := Evaluate(url, "http", html, browser, elapsed, libs);
            && r.semanticTags == 1 && r.adTags == 0 && r.domDistance == 0
            && r.encodingError == 0 && r.garbageRate == 0.0 && r.jsRatio == 1.0
  {
    var p := Element(Some("p"), None, []);
    var body := Element(Some("body"), None, [p]);
    var root := Element(Some("html"), None, [body]);
    assert [root][..0] == [] && [body][..0] == [] && [p][..0] == [];
    assert CountWhere([p], IsSemantic) == 1;
    assert CountWhere([body], IsSemantic) == 1;
    assert CountWhere([root], IsSemantic) == 1;
    assert CountWhere([root], IsIframeOrIns) == 0;
    assert CountWhere([root], HasAdClass) == 0;
    Utf8Spellings();
    Round3ZeroOne();
  }
}
