/**
 * The data-shaping part of `getDataOnePage`: one post per feed result, and the
 * in-order filter-map of every result's indicators through the classifier.
 * Fetching and decoding are outside; the decoded page and the crawl stamp are
 * inputs.
 */
module PageProcessor {
  import opened Wrappers
  import opened Feed
  import Classifier
  import Decimal

  /** The post built from one result: every field passed through, plus the stamp. */
  function MakePost(item: RawResult, now: string): Post {
    Post(item.id, item.name, item.description, item.authorName, item.modified, item.created,
         item.tags, item.targetedCountries, item.malwareFamilies, item.attackIds,
         item.industries, item.references, now)
  }

  /** The indicator built from an accepted raw indicator of `item`. */
  function MakeIndicator(item: RawResult, v: RawIndicator, c: Classifier.Category, now: string): Indicator {
    Indicator(Decimal.Itoa(v.id), v.indicator, Classifier.Name(c), v.created, now,
              Source, item.tags, item.id)
  }

  /** The indicator a raw indicator contributes, or `None` when its type is not trusted. */
  function IndicatorOf(item: RawResult, v: RawIndicator, now: string): Option<Indicator> {
    match Classifier.Classify(v.rawType)
    case None => None
    case Some(c) => Some(MakeIndicator(item, v, c, now))
  }

  /** What a well-formed output indicator of `item` looks like. */
  predicate OwnedBy(x: Indicator, item: RawResult, now: string) {
    && x.source == Source
    && Classifier.IsCanonicalName(x.iocType)
    && x.category == item.tags
    && x.postId == item.id
    && x.crawledTime == now
  }

  /** The filter-map of one result's indicators, in order. */
  function ResultIocs(item: RawResult, vs: seq<RawIndicator>, now: string): (r: seq<Indicator>)
    ensures |r| <= |vs|
    ensures forall k :: 0 <= k < |r| ==> OwnedBy(r[k], item, now)
    ensures forall k :: 0 <= k < |r| ==>
      exists j :: 0 <= j < |vs| && IndicatorOf(item, vs[j], now) == Some(r[k])
  {
    if |vs| == 0 then []
    else
      var rest := ResultIocs(item, vs[..|vs| - 1], now);
      match IndicatorOf(item, vs[|vs| - 1], now)
      case None => rest
      case Some(x) => rest + [x]
  }

  /** The posts of a page: one per result, in order. */
  function PagePosts(results: seq<RawResult>, now: string): (r: seq<Post>)
    ensures |r| == |results|
  {
    seq(|results|, i requires 0 <= i < |results| => MakePost(results[i], now))
  }

  /** Number of raw indicators over all results of a page. */
  function RawIndicatorCount(results: seq<RawResult>): nat {
    if |results| == 0 then 0
    else RawIndicatorCount(results[..|results| - 1]) + |results[|results| - 1].indicators|
  }

  /** The indicators of a page: each result's filter-map, concatenated in order. */
  function PageIocs(results: seq<RawResult>, now: string): (r: seq<Indicator>)
    ensures |r| <= RawIndicatorCount(results)
    ensures forall k :: 0 <= k < |r| ==>
      exists i :: 0 <= i < |results| && OwnedBy(r[k], results[i], now)
  {
    if |results| == 0 then []
    else
      var n := |results| - 1;
      var prefix := PageIocs(results[..n], now);
      var last := ResultIocs(results[n], results[n].indicators, now);
      assert forall k :: 0 <= k < |prefix| ==>
        exists i :: 0 <= i < n && OwnedBy(prefix[k], results[..n][i], now);
      prefix + last
  }

  /** One more raw indicator extends a result's output by its classification, if any. */
  lemma ResultIocsSnoc(item: RawResult, vs: seq<RawIndicator>, j: int, now: string)
    requires 0 <= j < |vs|
    ensures ResultIocs(item, vs[..j + 1], now)
            == ResultIocs(item, vs[..j], now)
               + (match IndicatorOf(item, vs[j], now) case None => [] case Some(x) => [x])
  {
    assert vs[..j + 1][..j] == vs[..j];
  }

  /** One more result extends the page's indicators by that result's output. */
  lemma PageIocsSnoc(results: seq<RawResult>, i: int, now: string)
    requires 0 <= i < |results|
    ensures PageIocs(results[..i + 1], now)
            == PageIocs(results[..i], now) + ResultIocs(results[i], results[i].indicators, now)
  {
    assert results[..i + 1][..i] == results[..i];
  }

  /** One more result extends the page's posts by that result's post. */
  lemma PagePostsSnoc(results: seq<RawResult>, i: int, now: string)
    requires 0 <= i < |results|
    ensures PagePosts(results[..i + 1], now) == PagePosts(results[..i], now) + [MakePost(results[i], now)]
  {
  }

  /**
   * The inner loop of `getDataOnePage`: the classified indicator of each of
   * the result's raw indicators whose type is trusted, in order.
   */
  method ResultIndicators(item: RawResult, now: string) returns (iocs: seq<Indicator>)
    ensures iocs == ResultIocs(item, item.indicators, now)
  {
    iocs := [];
    var j := 0;
    while j < |item.indicators|
      invariant 0 <= j <= |item.indicators|
      invariant iocs == ResultIocs(item, item.indicators[..j], now)
    {
      var v := item.indicators[j];
      ResultIocsSnoc(item, item.indicators, j, now);
      var found := Classifier.ClassifyType(v.rawType);
      if found.Some? {
        iocs := iocs + [Indicator(Decimal.Itoa(v.id), v.indicator, found.value, v.created, now,
                                  Source, item.tags, item.id)];
      }
      j := j + 1;
    }
    assert item.indicators[..j] == item.indicators;
  }

  /**
   * The loop of `getDataOnePage` after decoding: it appends a post per result
   * and then that result's classified indicators.
   */
  method GetDataOnePage(data: Data, now: string) returns (postList: seq<Post>, iocList: seq<Indicator>)
    ensures postList == PagePosts(data.results, now)
    ensures iocList == PageIocs(data.results, now)
    ensures |postList| == |data.results|
    ensures forall i :: 0 <= i < |postList| ==>
      && postList[i].id == data.results[i].id
      && postList[i].tags == data.results[i].tags
      && postList[i].crawledTime == now
  {
    postList := [];
    iocList := [];
    var i := 0;
    while i < |data.results|
      invariant 0 <= i <= |data.results|
      invariant postList == PagePosts(data.results[..i], now)
      invariant iocList == PageIocs(data.results[..i], now)
    {
      var item := data.results[i];
      PagePostsSnoc(data.results, i, now);
      PageIocsSnoc(data.results, i, now);
      postList := postList + [MakePost(item, now)];
      var iocs := ResultIndicators(item, now);
      iocList := iocList + iocs;
      i := i + 1;
    }
    assert data.results[..i] == data.results;
  }

  /** Number of raw indicators whose type is trusted. */
  function TrustedCount(vs: seq<RawIndicator>): nat {
    if |vs| == 0 then 0
    else TrustedCount(vs[..|vs| - 1]) + (if Classifier.Classify(vs[|vs| - 1].rawType).Some? then 1 else 0)
  }

  /** Filter-mapping a concatenation is concatenating the filter-maps. */
  lemma {:induction false} ResultIocsAppend(item: RawResult, a: seq<RawIndicator>, b: seq<RawIndicator>, now: string)
    ensures ResultIocs(item, a + b, now) == ResultIocs(item, a, now) + ResultIocs(item, b, now)
  {
    if |b| > 0 {
      var n := |b| - 1;
      assert (a + b)[..|a + b| - 1] == a + b[..n];
      ResultIocsAppend(item, a, b[..n], now);
    } else {
      assert a + b == a;
    }
  }

  /** An indicator whose raw type is not trusted (say "YARA") leaves the output unchanged. */
  lemma UntrustedContributesNothing(item: RawResult, pre: seq<RawIndicator>, v: RawIndicator,
                                    post: seq<RawIndicator>, now: string)
    requires v.rawType !in Classifier.TrustType
    ensures ResultIocs(item, pre + [v] + post, now) == ResultIocs(item, pre + post, now)
  {
    Classifier.ClassifyMatchesGroups(v.rawType);
    ResultIocsAppend(item, pre + [v], post, now);
    ResultIocsAppend(item, pre, [v], now);
    ResultIocsAppend(item, pre, post, now);
    assert ResultIocs(item, [v], now) == [];
  }

  /** A result yields exactly one indicator per raw indicator of trusted type. */
  lemma {:induction false} ResultIocsCount(item: RawResult, vs: seq<RawIndicator>, now: string)
    ensures |ResultIocs(item, vs, now)| == TrustedCount(vs)
  {
    if |vs| > 0 {
      ResultIocsCount(item, vs[..|vs| - 1], now);
    }
  }

  /** Every raw indicator classified into `c` reaches the result's output as a `c` indicator. */
  lemma {:induction false} ResultIocsComplete(item: RawResult, vs: seq<RawIndicator>, j: int,
                                              c: Classifier.Category, now: string)
    requires 0 <= j < |vs|
    requires Classifier.Classify(vs[j].rawType) == Some(c)
    ensures MakeIndicator(item, vs[j], c, now) in ResultIocs(item, vs, now)
  {
    var n := |vs| - 1;
    var rest := ResultIocs(item, vs[..n], now);
    if j < n {
      assert vs[..n][j] == vs[j];
      ResultIocsComplete(item, vs[..n], j, c, now);
      assert ResultIocs(item, vs, now)[..|rest|] == rest;
    } else {
      assert IndicatorOf(item, vs[n], now) == Some(MakeIndicator(item, vs[j], c, now));
    }
  }

  /** Every raw indicator classified into `c`, of any result, reaches the page's output. */
  lemma {:induction false} PageIocsCompleteIn(results: seq<RawResult>, i: int, j: int,
                                              c: Classifier.Category, now: string)
    requires 0 <= i < |results|
    requires 0 <= j < |results[i].indicators|
    requires Classifier.Classify(results[i].indicators[j].rawType) == Some(c)
    ensures MakeIndicator(results[i], results[i].indicators[j], c, now) in PageIocs(results, now)
  {
    var n := |results| - 1;
    var prefix := PageIocs(results[..n], now);
    var last := ResultIocs(results[n], results[n].indicators, now);
    assert PageIocs(results, now) == prefix + last;
    if i < n {
      assert results[..n][i] == results[i];
      PageIocsCompleteIn(results[..n], i, j, c, now);
    } else {
      assert i == n;
      ResultIocsComplete(results[n], results[n].indicators, j, c, now);
    }
  }

  /** Every trusted raw indicator of every result of the page reaches the page's output, classified. */
  lemma PageIocsComplete(results: seq<RawResult>, i: int, j: int, now: string)
    requires 0 <= i < |results|
    requires 0 <= j < |results[i].indicators|
    requires results[i].indicators[j].rawType in Classifier.TrustType
    ensures Classifier.Classify(results[i].indicators[j].rawType).Some?
    ensures MakeIndicator(results[i], results[i].indicators[j],
                          Classifier.Classify(results[i].indicators[j].rawType).value, now)
            in PageIocs(results, now)
  {
    var t := results[i].indicators[j].rawType;
    Classifier.ClassifyMatchesGroups(t);
    PageIocsCompleteIn(results, i, j, Classifier.Classify(t).value, now);
  }

  /**
   * Every indicator of the page is the classification of one raw indicator
   * of one of the page's results.
   */
  lemma {:induction false} PageIocsProvenance(results: seq<RawResult>, now: string, k: int)
    requires 0 <= k < |PageIocs(results, now)|
    ensures exists i, j :: 0 <= i < |results| && 0 <= j < |results[i].indicators|
                           && IndicatorOf(results[i], results[i].indicators[j], now) == Some(PageIocs(results, now)[k])
  {
    var n := |results| - 1;
    var prefix := PageIocs(results[..n], now);
    var last := ResultIocs(results[n], results[n].indicators, now);
    assert PageIocs(results, now) == prefix + last;
    if k < |prefix| {
      PageIocsProvenance(results[..n], now, k);
      var i, j :| 0 <= i < n && 0 <= j < |results[..n][i].indicators|
                  && IndicatorOf(results[..n][i], results[..n][i].indicators[j], now) == Some(prefix[k]);
      assert results[..n][i] == results[i];
    } else {
      var j :| 0 <= j < |results[n].indicators|
               && IndicatorOf(results[n], results[n].indicators[j], now) == Some(last[k - |prefix|]);
      assert PageIocs(results, now)[k] == last[k - |prefix|];
    }
  }

  /** Each output indicator's id reads back as its raw indicator's numeric id. */
  lemma ResultIocIdsRoundTrip(item: RawResult, vs: seq<RawIndicator>, now: string, k: int)
    requires 0 <= k < |ResultIocs(item, vs, now)|
    ensures exists j :: 0 <= j < |vs| && Decimal.Parse(ResultIocs(item, vs, now)[k].iocId) == Some(vs[j].id)
                                      && ResultIocs(item, vs, now)[k].ioc == vs[j].indicator
  {
    var r := ResultIocs(item, vs, now);
    var j :| 0 <= j < |vs| && IndicatorOf(item, vs[j], now) == Some(r[k]);
    Decimal.ParseItoa(vs[j].id);
  }

  /**
   * A result with one SHA-256 hash and one YARA rule yields its post and a
   * single indicator, of type "sample"; the YARA rule is dropped.
   */
  lemma HashAndYaraExample(item: RawResult, now: string)
    requires item.indicators == [RawIndicator(7, "e3b0c442", "FileHash-SHA256", "2021-01-01"),
                                 RawIndicator(8, "rule x", "YARA", "2021-01-01")]
    ensures |PagePosts([item], now)| == 1
    ensures |PageIocs([item], now)| == 1
    ensures PageIocs([item], now)[0].iocType == "sample"
    ensures PageIocs([item], now)[0].iocId == "7"
  {
    var vs := item.indicators;
    assert Classifier.Classify("YARA") == Wrappers.None;
    assert Classifier.Classify("FileHash-SHA256") == Wrappers.Some(Classifier.Sample);
    assert vs[..1][..0] == [];
    assert ResultIocs(item, vs[..1], now) == [MakeIndicator(item, vs[0], Classifier.Sample, now)];
    assert [item][..0] == [];
  }
}
