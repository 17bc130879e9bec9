/**
 * The sequential skeleton of `TotalPage` and `Subscribed`: the page count
 * from the feed's result count, the pages visited, the two units submitted
 * per page and the running totals. The bounded fan-out is not modelled; the
 * pages are taken in order, one at a time.
 */
module Pipeline {
  import opened Feed
  import PageProcessor
  import opened OtxProcess

  /** Results per feed page (`limit=50` in every feed query). */
  const PageSize: int := 50

  /** `TotalPage`: the ceiling of `count / PageSize`, in integers. */
  function TotalPage(count: int): (r: int)
    ensures (r - 1) * PageSize < count <= r * PageSize
    ensures count >= 0 ==> r >= 0
  {
    (count + PageSize - 1) / PageSize
  }

  /** The ceiling is the only integer with that property. */
  lemma TotalPageUnique(count: int, r: int)
    requires (r - 1) * PageSize < count <= r * PageSize
    ensures r == TotalPage(count)
  {
  }

  /** The two units submitted to a page's queue: posts only, then indicators only. */
  datatype PageUnits = PageUnits(postUnit: Job, iocUnit: Job)

  function UnitsOf(page: int, fetch: int -> Data, stamp: int -> string): PageUnits {
    PageUnits(Job(PageProcessor.PagePosts(fetch(page).results, stamp(page)), []),
              Job([], PageProcessor.PageIocs(fetch(page).results, stamp(page))))
  }

  /** Posts handed to the repository over a sequence of units. */
  function PostTotal(units: seq<PageUnits>): nat {
    if |units| == 0 then 0
    else PostTotal(units[..|units| - 1]) + |units[|units| - 1].postUnit.postList|
  }

  /** Indicators handed to the repository over a sequence of units. */
  function IocTotal(units: seq<PageUnits>): nat {
    if |units| == 0 then 0
    else IocTotal(units[..|units| - 1]) + |units[|units| - 1].iocUnit.iocList|
  }

  /**
   * `Subscribed` with the feed as `fetch` (page number to decoded page) and
   * the clock as `stamp` (page number to crawl time). It visits every page
   * from 1 to the page count once, in order, submits the two units of each
   * page, and totals the posts and indicators it produced.
   */
  method Subscribed(count: int, fetch: int -> Data, stamp: int -> string)
    returns (visited: seq<int>, units: seq<PageUnits>, totalPost: int, totalIoc: int)
    ensures forall p :: p in visited <==> 1 <= p <= TotalPage(count)
    ensures forall i, j :: 0 <= i < j < |visited| ==> visited[i] < visited[j]
    ensures count <= 0 ==> visited == []
    ensures |units| == |visited|
    ensures forall i :: 0 <= i < |visited| ==> units[i] == UnitsOf(visited[i], fetch, stamp)
    ensures totalPost == PostTotal(units) && totalIoc == IocTotal(units)
  {
    var totalPage := TotalPage(count);
    visited, units, totalPost, totalIoc := [], [], 0, 0;
    if totalPage > 0 {
      var page := 1;
      while page <= totalPage
        invariant 1 <= page <= totalPage + 1
        invariant |visited| == page - 1
        invariant forall i :: 0 <= i < |visited| ==> visited[i] == i + 1
        invariant |units| == |visited|
        invariant forall i :: 0 <= i < |visited| ==> units[i] == UnitsOf(visited[i], fetch, stamp)
        invariant totalPost == PostTotal(units) && totalIoc == IocTotal(units)
      {
        var postList, iocList := PageProcessor.GetDataOnePage(fetch(page), stamp(page));
        totalPost := totalPost + |postList|;
        totalIoc := totalIoc + |iocList|;
        var u := PageUnits(Job(postList, []), Job([], iocList));
        assert (units + [u])[..|units|] == units;
        visited := visited + [page];
        units := units + [u];
        page := page + 1;
      }
    }
    forall p | p in visited
      ensures 1 <= p <= totalPage
    {
      var i :| 0 <= i < |visited| && visited[i] == p;
    }
    forall p | 1 <= p <= totalPage
      ensures p in visited
    {
      assert visited[p - 1] == p;
    }
  }

  /**
   * Whatever a page's units publish is what the page processor produced: the
   * post batch is one post per result, and every indicator published carries a
   * canonical type, the feed's source tag and its owning result's id and tags.
   */
  lemma PublishedBatchesComeFromPage(page: int, fetch: int -> Data, stamp: int -> string,
                                     a: Answers, e: Event)
    requires e.Publish?
    requires e in Process(UnitsOf(page, fetch, stamp).postUnit, a)
             || e in Process(UnitsOf(page, fetch, stamp).iocUnit, a)
    ensures e.batch.PostBatch? ==>
      e.batch.posts == PageProcessor.PagePosts(fetch(page).results, stamp(page)) || e.batch.posts == []
    ensures e.batch.IocBatch? ==>
      e.batch.iocs == PageProcessor.PageIocs(fetch(page).results, stamp(page)) || e.batch.iocs == []
    ensures e.batch.IocBatch? ==> forall x :: x in e.batch.iocs ==>
      && x.source == Source
      && exists i :: 0 <= i < |fetch(page).results| && PageProcessor.OwnedBy(x, fetch(page).results[i], stamp(page))
  {
    var u := UnitsOf(page, fetch, stamp);
    if e in Process(u.postUnit, a) {
      var i :| 0 <= i < |Process(u.postUnit, a)| && Process(u.postUnit, a)[i] == e;
      PublishFollowsInsert(u.postUnit, a, i);
    } else {
      var i :| 0 <= i < |Process(u.iocUnit, a)| && Process(u.iocUnit, a)[i] == e;
      PublishFollowsInsert(u.iocUnit, a, i);
    }
  }
}
