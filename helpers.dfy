/** The two pagination walkers of nuldc/helpers.py and the dispatcher that
    chooses between them.

    The network is a map from URL to decoded page: a URL the map does not
    hold stands for a request or a JSON decoding that raised. Python's
    exceptions become an `Outcome`, and the start object's state at the
    moment of the exception is stated exactly. Python loops forever on a
    cyclic chain of pages; here each walker takes a ghost fuel `n` and
    requires that the chain it follows ends (or breaks) within `n` fetches.

    Each walker is a method over the start object, proved against a value
    function (`CursorWalk`, `IiifWalk`); the lemmas characterise those
    functions through predicates that say which chain of pages was followed. */
module Helpers {
  import opened Pages

  /** Why a walk raised. */
  datatype WalkError =
    | FetchFailed(url: Url)   // requests.get(url).json() raised
    | EmptyItems              // the start manifest's `items` is empty (IndexError)
    | NoContinuation          // the start manifest ends in no Collection (`next` unbound)
    | EmptyPage(url: Url)     // a fetched page's `items` is empty (IndexError)
    | WrongShape              // the first response is not of the shape the walker reads

  datatype Outcome = Done | Raised(error: WalkError)

  /** The pages a walk fetched, in order, and the error that stopped it, if any. */
  datatype Run<P> = Run(pages: seq<P>, failure: Option<WalkError>)

  /** What a walker leaves in its start object, and how it ended. */
  datatype Walked<P> = Walked(page: P, outcome: Outcome)

  function OutcomeOf(failure: Option<WalkError>): Outcome
  {
    if failure.None? then Done else Raised(failure.value)
  }

  // =======================================================================
  // get_all_search_results: the cursor walk

  /** Following `next_url` pointers from `next` reaches a falsy pointer or a
      URL that cannot be fetched within `n` fetches. */
  predicate CursorEnds(web: map<Url, CursorPage>, next: Option<Url>, n: nat)
    decreases n
  {
    !Truthy(next) || next.value !in web
    || (n > 0 && CursorEnds(web, web[next.value].pagination.nextUrl, n - 1))
  }

  /** The pages fetched by following `next_url` from `next`. */
  function FollowCursor(web: map<Url, CursorPage>, next: Option<Url>, n: nat): (run: Run<CursorPage>)
    requires CursorEnds(web, next, n)
    ensures run.failure.None? || run.failure.value.FetchFailed?
    decreases n
  {
    if !Truthy(next) then Run([], None)
    else if next.value !in web then Run([], Some(FetchFailed(next.value)))
    else
      var page := web[next.value];
      var rest := FollowCursor(web, page.pagination.nextUrl, n - 1);
      Run([page] + rest.pages, rest.failure)
  }

  /** The `data` of the pages, concatenated in order. */
  function AllData(pages: seq<CursorPage>): seq<Json>
  {
    if pages == [] then [] else pages[0].data + AllData(pages[1..])
  }

  /** The start page after the walk: only `data` changes. */
  function CursorWalk(start: CursorPage, web: map<Url, CursorPage>, n: nat): Walked<CursorPage>
    requires CursorEnds(web, start.pagination.nextUrl, n)
  {
    var run := FollowCursor(web, start.pagination.nextUrl, n);
    Walked(start.(data := start.data + AllData(run.pages)), OutcomeOf(run.failure))
  }

  /** The pointer is truthy and the network serves `page` at it. */
  predicate ServesAt<P(==)>(web: map<Url, P>, p: Option<Url>, page: P)
  {
    Truthy(p) && p.value in web && web[p.value] == page
  }

  /** The `next_url` found on the last of `pages`; `next` itself when there are none. */
  function CursorEndPointer(next: Option<Url>, pages: seq<CursorPage>): Option<Url>
  {
    if pages == [] then next else pages[|pages| - 1].pagination.nextUrl
  }

  /** `pages` is a chain of links: the first is what the network serves at
      `next`, each following one what it serves at the previous `next_url`. */
  predicate CursorLinked(web: map<Url, CursorPage>, next: Option<Url>, pages: seq<CursorPage>)
    decreases |pages|
  {
    pages == []
    || (ServesAt(web, next, pages[0]) && CursorLinked(web, pages[0].pagination.nextUrl, pages[1..]))
  }

  /** `pages` is the whole chain: the last page's `next_url` is falsy. */
  predicate CursorComplete(web: map<Url, CursorPage>, next: Option<Url>, pages: seq<CursorPage>)
  {
    CursorLinked(web, next, pages) && !Truthy(CursorEndPointer(next, pages))
  }

  /** `pages` is the chain up to a pointer `url` that cannot be fetched. */
  predicate CursorBroken(web: map<Url, CursorPage>, next: Option<Url>, pages: seq<CursorPage>, url: Url)
  {
    CursorLinked(web, next, pages) && CursorEndPointer(next, pages) == Some(url)
    && url != "" && url !in web
  }

  /** One fetch of the cursor walk. */
  lemma FollowCursorStep(web: map<Url, CursorPage>, next: Option<Url>, n: nat)
    requires CursorEnds(web, next, n) && Truthy(next) && next.value in web
    ensures var next' := web[next.value].pagination.nextUrl;
            n > 0 && CursorEnds(web, next', n - 1)
            && FollowCursor(web, next, n)
               == Run([web[next.value]] + FollowCursor(web, next', n - 1).pages, FollowCursor(web, next', n - 1).failure)
  {
  }

  /** Splitting off the head of a non-empty sequence commutes with appending. */
  lemma ConsAppend<T>(s: seq<T>, t: seq<T>)
    requires |s| > 0
    ensures [s[0]] + (s[1..] + t) == s + t
  {
    assert s == [s[0]] + s[1..];
  }

  /** Following pointers along a linked chain fetches exactly its pages first. */
  lemma {:induction false} FollowCursorAlongChain(web: map<Url, CursorPage>, next: Option<Url>, pages: seq<CursorPage>, n: nat)
    requires CursorEnds(web, next, n) && CursorLinked(web, next, pages)
    ensures |pages| <= n && CursorEnds(web, CursorEndPointer(next, pages), n - |pages|)
    ensures var rest := FollowCursor(web, CursorEndPointer(next, pages), n - |pages|);
            FollowCursor(web, next, n) == Run(pages + rest.pages, rest.failure)
    decreases pages
  {
    if |pages| > 0 {
      var next' := pages[0].pagination.nextUrl;
      FollowCursorStep(web, next, n);
      FollowCursorAlongChain(web, next', pages[1..], n - 1);
      assert CursorEndPointer(next', pages[1..]) == CursorEndPointer(next, pages);
      var rest := FollowCursor(web, CursorEndPointer(next, pages), n - |pages|);
      ConsAppend(pages, rest.pages);
    }
  }

  /** The walk fetches every page of a complete chain and then stops. */
  lemma CursorCompleteIsFollowed(web: map<Url, CursorPage>, next: Option<Url>, pages: seq<CursorPage>, n: nat)
    requires CursorEnds(web, next, n) && CursorComplete(web, next, pages)
    ensures FollowCursor(web, next, n) == Run(pages, None)
  {
    FollowCursorAlongChain(web, next, pages, n);
    assert pages + [] == pages;
  }

  /** The walk fetches every page before a broken link and then raises. */
  lemma CursorBrokenIsFollowed(web: map<Url, CursorPage>, next: Option<Url>, pages: seq<CursorPage>, url: Url, n: nat)
    requires CursorEnds(web, next, n) && CursorBroken(web, next, pages, url)
    ensures FollowCursor(web, next, n) == Run(pages, Some(FetchFailed(url)))
  {
    FollowCursorAlongChain(web, next, pages, n);
    assert pages + [] == pages;
  }

  /** Conversely, what the walk fetched is a complete or a broken chain. */
  lemma {:induction false} FollowCursorIsChain(web: map<Url, CursorPage>, next: Option<Url>, n: nat)
    requires CursorEnds(web, next, n)
    ensures var run := FollowCursor(web, next, n);
            (run.failure.None? ==> CursorComplete(web, next, run.pages))
            && (run.failure.Some? ==> CursorBroken(web, next, run.pages, run.failure.value.url))
    decreases n
  {
    if Truthy(next) && next.value in web {
      var next' := web[next.value].pagination.nextUrl;
      FollowCursorStep(web, next, n);
      FollowCursorIsChain(web, next', n - 1);
      var rest := FollowCursor(web, next', n - 1);
      var pages := [web[next.value]] + rest.pages;
      assert pages[1..] == rest.pages;
      assert CursorEndPointer(next, pages) == CursorEndPointer(next', rest.pages);
    }
  }

  /** A complete chain of `k` pages ends within `k` fetches, so fuel `|pages|` suffices. */
  lemma {:induction false} CursorCompleteEnds(web: map<Url, CursorPage>, next: Option<Url>, pages: seq<CursorPage>)
    requires CursorComplete(web, next, pages)
    ensures CursorEnds(web, next, |pages|)
    decreases pages
  {
    if |pages| > 0 {
      assert CursorEndPointer(pages[0].pagination.nextUrl, pages[1..]) == CursorEndPointer(next, pages);
      CursorCompleteEnds(web, pages[0].pagination.nextUrl, pages[1..]);
    }
  }

  /** The walk only extends `data`: the start page's records come first and
      `pagination` (with the first `next_url`) and every other key stay. */
  lemma CursorWalkOnlyExtendsData(start: CursorPage, web: map<Url, CursorPage>, n: nat)
    requires CursorEnds(web, start.pagination.nextUrl, n)
    ensures var w := CursorWalk(start, web, n).page;
            w.pagination == start.pagination && w.others == start.others
            && |start.data| <= |w.data| && w.data[..|start.data|] == start.data
  {
  }

  /** The returned `data` is the start page's `data` followed by the `data`
      of every page of the `next_url` chain, in link order. */
  lemma CursorWalkCollectsChain(start: CursorPage, web: map<Url, CursorPage>, n: nat, pages: seq<CursorPage>)
    requires CursorEnds(web, start.pagination.nextUrl, n)
    requires CursorComplete(web, start.pagination.nextUrl, pages)
    ensures CursorWalk(start, web, n) == Walked(start.(data := start.data + AllData(pages)), Done)
  {
    CursorCompleteIsFollowed(web, start.pagination.nextUrl, pages, n);
  }

  /** A fetch that raises ends the walk; the pages before it are already appended. */
  lemma CursorWalkStopsAtBrokenLink(start: CursorPage, web: map<Url, CursorPage>, n: nat, pages: seq<CursorPage>, url: Url)
    requires CursorEnds(web, start.pagination.nextUrl, n)
    requires CursorBroken(web, start.pagination.nextUrl, pages, url)
    ensures CursorWalk(start, web, n) == Walked(start.(data := start.data + AllData(pages)), Raised(FetchFailed(url)))
  {
    CursorBrokenIsFollowed(web, start.pagination.nextUrl, pages, url, n);
  }

  /** A falsy first `next_url` fetches nothing and returns the start page as it was. */
  lemma CursorWalkNoNext(start: CursorPage, web: map<Url, CursorPage>, n: nat)
    requires !Truthy(start.pagination.nextUrl)
    ensures CursorWalk(start, web, n) == Walked(start, Done)
  {
    assert start.(data := start.data + []) == start;
  }

  function TestRecord(id: string): Json
  {
    Obj(map["id" := Str(id)])
  }

  /** Two records linking to a last page of two records give four records. */
  lemma CursorTwoPagesScenario()
    ensures var p2 := CursorPage([TestRecord("1"), TestRecord("2")], Pagination(Some(""), map[]), map[]);
            var p1 := CursorPage([TestRecord("1"), TestRecord("2")], Pagination(Some("http://test.com/next"), map[]), map[]);
            var web := map["http://test.com/next" := p2];
            CursorEnds(web, p1.pagination.nextUrl, 1)
            && |CursorWalk(p1, web, 1).page.data| == 4
            && CursorWalk(p1, web, 1).outcome == Done
  {
    var p2 := CursorPage([TestRecord("1"), TestRecord("2")], Pagination(Some(""), map[]), map[]);
    var p1 := CursorPage([TestRecord("1"), TestRecord("2")], Pagination(Some("http://test.com/next"), map[]), map[]);
    var web := map["http://test.com/next" := p2];
    assert [p2][1..] == [];
    assert ServesAt(web, p1.pagination.nextUrl, p2);
    assert CursorLinked(web, p2.pagination.nextUrl, []);
    assert CursorEndPointer(p1.pagination.nextUrl, [p2]) == Some("");
    assert CursorComplete(web, p1.pagination.nextUrl, [p2]);
    CursorCompleteEnds(web, p1.pagination.nextUrl, [p2]);
    CursorWalkCollectsChain(p1, web, 1, [p2]);
  }

  /** The start object of the cursor walk, updated in place. */
  class SearchResults {
    var data: seq<Json>
    var pagination: Pagination
    var others: map<string, Json>

    constructor (page: CursorPage)
      ensures Page() == page
    {
      data, pagination, others := page.data, page.pagination, page.others;
    }

    /** The object as a JSON page. */
    function Page(): CursorPage
      reads this
    {
      CursorPage(data, pagination, others)
    }
  }

  /** get_all_search_results: walks the `next_url` chain, replacing
      `results.data` page by page, and returns `results` itself. */
  method GetAllSearchResults(results: SearchResults, web: map<Url, CursorPage>, ghost n: nat)
    returns (r: SearchResults, outcome: Outcome)
    requires CursorEnds(web, results.pagination.nextUrl, n)
    modifies results`data
    ensures r == results
    ensures results.Page() == CursorWalk(old(results.Page()), web, n).page
    ensures outcome == CursorWalk(old(results.Page()), web, n).outcome
  {
    r := results;
    ghost var start := results.pagination.nextUrl;
    var next := results.pagination.nextUrl;
    ghost var k := n;
    while Truthy(next)
      invariant CursorEnds(web, next, k)
      invariant results.pagination == old(results.pagination) && results.others == old(results.others)
      invariant FollowCursor(web, next, k).failure == FollowCursor(web, start, n).failure
      invariant results.data + AllData(FollowCursor(web, next, k).pages)
                == old(results.data) + AllData(FollowCursor(web, start, n).pages)
      decreases k
    {
      if next.value !in web {
        outcome := Raised(FetchFailed(next.value));
        return;
      }
      var nextResults := web[next.value];
      ghost var rest := FollowCursor(web, nextResults.pagination.nextUrl, k - 1).pages;
      assert AllData([nextResults] + rest) == nextResults.data + AllData(rest) by {
        assert ([nextResults] + rest)[1..] == rest;
      }
      results.data := results.data + nextResults.data;
      next := nextResults.pagination.nextUrl;
      k := k - 1;
    }
    outcome := Done;
  }

  // =======================================================================
  // get_all_iiif: the IIIF Collection walk

  /** The last item is a Collection: the one item the walk inspects. */
  predicate EndsInCollection(items: seq<Item>)
  {
    |items| > 0 && IsCollection(items[|items| - 1])
  }

  /** `items` after the trailing Collection, if any, has been popped. */
  function Trim(items: seq<Item>): seq<Item>
  {
    if EndsInCollection(items) then items[..|items| - 1] else items
  }

  /** The next URL a page yields: the trailing Collection's `id`, or None. */
  function Continuation(items: seq<Item>): Option<Url>
  {
    if EndsInCollection(items) then items[|items| - 1].id else None
  }

  /** Following Collection pointers from `next` reaches a falsy pointer, a
      URL that cannot be fetched or a page with no items within `n` fetches. */
  predicate IiifEnds(web: map<Url, IiifPage>, next: Option<Url>, n: nat)
    decreases n
  {
    !Truthy(next) || next.value !in web || |web[next.value].items| == 0
    || (n > 0 && IiifEnds(web, Continuation(web[next.value].items), n - 1))
  }

  /** The pages fetched by following Collection pointers from `next`. */
  function FollowIiif(web: map<Url, IiifPage>, next: Option<Url>, n: nat): (run: Run<IiifPage>)
    requires IiifEnds(web, next, n)
    ensures run.failure.None? || run.failure.value.FetchFailed? || run.failure.value.EmptyPage?
    decreases n
  {
    if !Truthy(next) then Run([], None)
    else if next.value !in web then Run([], Some(FetchFailed(next.value)))
    else if |web[next.value].items| == 0 then Run([], Some(EmptyPage(next.value)))
    else
      var page := web[next.value];
      var rest := FollowIiif(web, Continuation(page.items), n - 1);
      Run([page] + rest.pages, rest.failure)
  }

  /** The items the walk keeps of each fetched page, concatenated in order. */
  function Kept(pages: seq<IiifPage>): seq<Item>
  {
    if pages == [] then [] else Trim(pages[0].items) + Kept(pages[1..])
  }

  /** The start manifest after the walk: only `items` changes. */
  function IiifWalk(start: IiifPage, web: map<Url, IiifPage>, n: nat): Walked<IiifPage>
    requires IiifEnds(web, Continuation(start.items), n)
  {
    if |start.items| == 0 then Walked(start, Raised(EmptyItems))
    else if !EndsInCollection(start.items) then Walked(start, Raised(NoContinuation))
    else
      var run := FollowIiif(web, Continuation(start.items), n);
      Walked(start.(items := Trim(start.items) + Kept(run.pages)), OutcomeOf(run.failure))
  }

  /** The continuation found on the last of `pages`; `next` itself when there are none. */
  function IiifEndPointer(next: Option<Url>, pages: seq<IiifPage>): Option<Url>
  {
    if pages == [] then next else Continuation(pages[|pages| - 1].items)
  }

  /** `pages` is a chain of non-empty pages: the first is what the network
      serves at `next`, each following one what it serves at the previous
      page's continuation. */
  predicate IiifLinked(web: map<Url, IiifPage>, next: Option<Url>, pages: seq<IiifPage>)
    decreases |pages|
  {
    pages == []
    || (ServesAt(web, next, pages[0]) && |pages[0].items| > 0
        && IiifLinked(web, Continuation(pages[0].items), pages[1..]))
  }

  /** `pages` is the whole chain: the last page yields no truthy pointer,
      because its last item is no Collection or that Collection's `id` is falsy. */
  predicate IiifComplete(web: map<Url, IiifPage>, next: Option<Url>, pages: seq<IiifPage>)
  {
    IiifLinked(web, next, pages) && !Truthy(IiifEndPointer(next, pages))
  }

  /** `pages` is the chain up to a pointer whose page cannot be fetched or has no items. */
  predicate IiifBroken(web: map<Url, IiifPage>, next: Option<Url>, pages: seq<IiifPage>, error: WalkError)
  {
    IiifLinked(web, next, pages)
    && var p := IiifEndPointer(next, pages);
       Truthy(p)
       && ((p.value !in web && error == FetchFailed(p.value))
           || (p.value in web && |web[p.value].items| == 0 && error == EmptyPage(p.value)))
  }

  /** One fetch of the IIIF walk. */
  lemma FollowIiifStep(web: map<Url, IiifPage>, next: Option<Url>, n: nat)
    requires IiifEnds(web, next, n) && Truthy(next) && next.value in web && |web[next.value].items| > 0
    ensures var next' := Continuation(web[next.value].items);
            n > 0 && IiifEnds(web, next', n - 1)
            && FollowIiif(web, next, n)
               == Run([web[next.value]] + FollowIiif(web, next', n - 1).pages, FollowIiif(web, next', n - 1).failure)
  {
  }

  /** One fetch of the IIIF walk: the page's trimmed items come first. */
  lemma FollowIiifKept(web: map<Url, IiifPage>, next: Option<Url>, n: nat)
    requires IiifEnds(web, next, n) && Truthy(next) && next.value in web && |web[next.value].items| > 0
    ensures var next' := Continuation(web[next.value].items);
            n > 0 && IiifEnds(web, next', n - 1)
            && FollowIiif(web, next, n).failure == FollowIiif(web, next', n - 1).failure
            && Kept(FollowIiif(web, next, n).pages)
               == Trim(web[next.value].items) + Kept(FollowIiif(web, next', n - 1).pages)
  {
    FollowIiifStep(web, next, n);
    var rest := FollowIiif(web, Continuation(web[next.value].items), n - 1).pages;
    assert ([web[next.value]] + rest)[1..] == rest;
  }

  /** A linked chain uses up one unit of fuel per page. */
  lemma {:induction false} IiifLinkedFuel(web: map<Url, IiifPage>, next: Option<Url>, pages: seq<IiifPage>, n: nat)
    requires IiifEnds(web, next, n) && IiifLinked(web, next, pages)
    ensures |pages| <= n && IiifEnds(web, IiifEndPointer(next, pages), n - |pages|)
    decreases pages
  {
    if |pages| > 0 {
      var next' := Continuation(pages[0].items);
      assert n > 0 && IiifEnds(web, next', n - 1);
      IiifLinkedFuel(web, next', pages[1..], n - 1);
      assert IiifEndPointer(next', pages[1..]) == IiifEndPointer(next, pages);
    }
  }

  /** Following pointers along a linked chain fetches exactly its pages first. */
  lemma {:induction false} FollowIiifAlongChain(web: map<Url, IiifPage>, next: Option<Url>, pages: seq<IiifPage>, n: nat)
    requires IiifEnds(web, next, n) && IiifLinked(web, next, pages)
    requires |pages| <= n && IiifEnds(web, IiifEndPointer(next, pages), n - |pages|)
    ensures var rest := FollowIiif(web, IiifEndPointer(next, pages), n - |pages|);
            FollowIiif(web, next, n) == Run(pages + rest.pages, rest.failure)
    decreases pages
  {
    if |pages| > 0 {
      var next' := Continuation(pages[0].items);
      assert pages[0] == web[next.value];
      FollowIiifStep(web, next, n);
      IiifEndPointerStep(next, pages);
      FollowIiifAlongChain(web, next', pages[1..], n - 1);
      var rest := FollowIiif(web, IiifEndPointer(next, pages), n - |pages|);
      calc {
        FollowIiif(web, next, n);
        Run([pages[0]] + FollowIiif(web, next', n - 1).pages, FollowIiif(web, next', n - 1).failure);
        Run([pages[0]] + (pages[1..] + rest.pages), rest.failure);
        { ConsAppend(pages, rest.pages); }
        Run(pages + rest.pages, rest.failure);
      }
    }
  }

  lemma IiifEndPointerStep(next: Option<Url>, pages: seq<IiifPage>)
    requires |pages| > 0
    ensures IiifEndPointer(Continuation(pages[0].items), pages[1..]) == IiifEndPointer(next, pages)
  {
  }

  /** Conversely, what the walk fetched is a complete or a broken chain. */
  lemma {:induction false} FollowIiifIsChain(web: map<Url, IiifPage>, next: Option<Url>, n: nat)
    requires IiifEnds(web, next, n)
    ensures var run := FollowIiif(web, next, n);
            (run.failure.None? ==> IiifComplete(web, next, run.pages))
            && (run.failure.Some? ==> IiifBroken(web, next, run.pages, run.failure.value))
    decreases n
  {
    if Truthy(next) && next.value in web && |web[next.value].items| > 0 {
      var next' := Continuation(web[next.value].items);
      FollowIiifStep(web, next, n);
      FollowIiifIsChain(web, next', n - 1);
      var rest := FollowIiif(web, next', n - 1);
      var pages := [web[next.value]] + rest.pages;
      assert pages[1..] == rest.pages;
      assert IiifEndPointer(next, pages) == IiifEndPointer(next', rest.pages);
    }
  }

  /** A complete chain of `k` pages ends within `k` fetches. */
  lemma {:induction false} IiifCompleteEnds(web: map<Url, IiifPage>, next: Option<Url>, pages: seq<IiifPage>)
    requires IiifComplete(web, next, pages)
    ensures IiifEnds(web, next, |pages|)
    decreases pages
  {
    if |pages| > 0 {
      assert IiifEndPointer(Continuation(pages[0].items), pages[1..]) == IiifEndPointer(next, pages);
      IiifCompleteEnds(web, Continuation(pages[0].items), pages[1..]);
    }
  }

  /** The start manifest's items must end in a Collection, or the walk raises
      before it changes anything. */
  lemma IiifWalkStartErrors(start: IiifPage, web: map<Url, IiifPage>, n: nat)
    requires IiifEnds(web, Continuation(start.items), n)
    ensures |start.items| == 0 ==> IiifWalk(start, web, n) == Walked(start, Raised(EmptyItems))
    ensures |start.items| > 0 && !EndsInCollection(start.items)
            ==> IiifWalk(start, web, n) == Walked(start, Raised(NoContinuation))
    ensures IiifWalk(start, web, n).outcome == Raised(EmptyItems) || IiifWalk(start, web, n).outcome == Raised(NoContinuation)
            ==> !EndsInCollection(start.items) && IiifWalk(start, web, n).page == start
  {
  }

  /** The walk drops only the start manifest's last item, keeps the others in
      order in front, and leaves every other key alone. */
  lemma IiifWalkKeepsStartItems(start: IiifPage, web: map<Url, IiifPage>, n: nat)
    requires IiifEnds(web, Continuation(start.items), n)
    requires EndsInCollection(start.items)
    ensures var w := IiifWalk(start, web, n).page;
            w.others == start.others
            && |start.items| - 1 <= |w.items| && w.items[..|start.items| - 1] == start.items[..|start.items| - 1]
  {
  }

  /** The returned `items` are the start manifest's items without its trailing
      Collection, followed by every fetched page's items without theirs, in link order. */
  lemma IiifWalkCollectsChain(start: IiifPage, web: map<Url, IiifPage>, n: nat, pages: seq<IiifPage>)
    requires IiifEnds(web, Continuation(start.items), n)
    requires EndsInCollection(start.items)
    requires IiifComplete(web, Continuation(start.items), pages)
    ensures IiifWalk(start, web, n) == Walked(start.(items := Trim(start.items) + Kept(pages)), Done)
  {
    IiifLinkedFuel(web, Continuation(start.items), pages, n);
    FollowIiifAlongChain(web, Continuation(start.items), pages, n);
    assert pages + [] == pages;
  }

  /** A fetch that raises, or a fetched page with no items, ends the walk;
      the pages before it are already appended. */
  lemma IiifWalkStopsAtBrokenLink(start: IiifPage, web: map<Url, IiifPage>, n: nat, pages: seq<IiifPage>, error: WalkError)
    requires IiifEnds(web, Continuation(start.items), n)
    requires EndsInCollection(start.items)
    requires IiifBroken(web, Continuation(start.items), pages, error)
    ensures IiifWalk(start, web, n) == Walked(start.(items := Trim(start.items) + Kept(pages)), Raised(error))
  {
    IiifLinkedFuel(web, Continuation(start.items), pages, n);
    FollowIiifAlongChain(web, Continuation(start.items), pages, n);
    assert pages + [] == pages;
  }

  lemma {:induction false} KeptAppend(pages: seq<IiifPage>, page: IiifPage)
    ensures Kept(pages + [page]) == Kept(pages) + Trim(page.items)
    decreases pages
  {
    if pages == [] {
      assert pages + [page] == [page];
      assert [page][1..] == [];
    } else {
      calc {
        Kept(pages + [page]);
        { assert (pages + [page])[0] == pages[0];
          assert (pages + [page])[1..] == pages[1..] + [page]; }
        Trim(pages[0].items) + Kept(pages[1..] + [page]);
        { KeptAppend(pages[1..], page); }
        Trim(pages[0].items) + (Kept(pages[1..]) + Trim(page.items));
        (Trim(pages[0].items) + Kept(pages[1..])) + Trim(page.items);
        Kept(pages) + Trim(page.items);
      }
    }
  }

  /** The page that ends the walk because its last item is no Collection is
      appended in full. */
  lemma IiifWalkLastPageInFull(start: IiifPage, web: map<Url, IiifPage>, n: nat, pages: seq<IiifPage>)
    requires IiifEnds(web, Continuation(start.items), n)
    requires EndsInCollection(start.items)
    requires IiifComplete(web, Continuation(start.items), pages)
    requires |pages| > 0 && !EndsInCollection(pages[|pages| - 1].items)
    ensures var items := IiifWalk(start, web, n).page.items;
            var last := pages[|pages| - 1].items;
            |last| <= |items| && items[|items| - |last|..] == last
  {
    IiifWalkCollectsChain(start, web, n, pages);
    var init, lastPage := pages[..|pages| - 1], pages[|pages| - 1];
    KeptAppend(init, lastPage);
    assert init + [lastPage] == pages;
    assert Trim(lastPage.items) == lastPage.items;
    var items := Trim(start.items) + (Kept(init) + lastPage.items);
    assert IiifWalk(start, web, n).page.items == items;
    assert items[|items| - |lastPage.items|..] == lastPage.items;
  }

  /** IIIF pages as the API serves them: a Collection item, if any, is the last item. */
  predicate CollectionOnlyLast(items: seq<Item>)
  {
    forall i :: 0 <= i < |items| - 1 ==> !IsCollection(items[i])
  }

  predicate NoCollections(items: seq<Item>)
  {
    forall i :: 0 <= i < |items| ==> !IsCollection(items[i])
  }

  /** The kept items of a chain of well-formed pages hold no Collection. */
  lemma {:induction false} KeptHasNoCollections(pages: seq<IiifPage>)
    requires forall i :: 0 <= i < |pages| ==> CollectionOnlyLast(pages[i].items)
    ensures NoCollections(Kept(pages))
    decreases pages
  {
    if pages != [] {
      KeptHasNoCollections(pages[1..]);
      var t := Trim(pages[0].items);
      assert CollectionOnlyLast(pages[0].items);
      assert NoCollections(t);
      assert Kept(pages) == t + Kept(pages[1..]);
    }
  }

  /** When the start page and every page the walk fetches keep their
      Collection item last, the walk leaves no Collection item in `items`,
      however it ends. */
  lemma IiifWalkRemovesContinuations(start: IiifPage, web: map<Url, IiifPage>, n: nat)
    requires IiifEnds(web, Continuation(start.items), n)
    requires CollectionOnlyLast(start.items)
    requires forall i :: 0 <= i < |FollowIiif(web, Continuation(start.items), n).pages| ==>
               CollectionOnlyLast(FollowIiif(web, Continuation(start.items), n).pages[i].items)
    ensures NoCollections(IiifWalk(start, web, n).page.items)
  {
    if EndsInCollection(start.items) {
      KeptHasNoCollections(FollowIiif(web, Continuation(start.items), n).pages);
    }
  }

  function TestManifest(n: string): Item
  {
    Item(Some("Manifest"), Some("https://example.org/iiif/result-" + n + ".json"), map[])
  }

  /** Two pages of two manifests each, the first linking to the second, give four items. */
  lemma IiifTwoPagesScenario()
    ensures var link := Item(Some("Collection"), Some("https://example.org/iiif/paged-2.json"), map[]);
            var p1 := IiifPage([TestManifest("1"), TestManifest("2"), link], map[]);
            var p2 := IiifPage([TestManifest("1"), TestManifest("2")], map[]);
            var web := map["https://example.org/iiif/paged-2.json" := p2];
            IiifEnds(web, Continuation(p1.items), 1)
            && |IiifWalk(p1, web, 1).page.items| == 4
            && NoCollections(IiifWalk(p1, web, 1).page.items)
            && IiifWalk(p1, web, 1).outcome == Done
  {
    var link := Item(Some("Collection"), Some("https://example.org/iiif/paged-2.json"), map[]);
    var p1 := IiifPage([TestManifest("1"), TestManifest("2"), link], map[]);
    var p2 := IiifPage([TestManifest("1"), TestManifest("2")], map[]);
    var web := map["https://example.org/iiif/paged-2.json" := p2];
    var next := Continuation(p1.items);
    assert next == Some("https://example.org/iiif/paged-2.json");
    assert ServesAt(web, next, p2);
    assert Continuation(p2.items) == None;
    assert [p2][1..] == [] && IiifLinked(web, None, []);
    assert IiifLinked(web, next, [p2]);
    assert IiifEndPointer(next, [p2]) == None;
    IiifCompleteEnds(web, next, [p2]);
    IiifWalkCollectsChain(p1, web, 1, [p2]);
    assert Kept([p2]) == p2.items;
    IiifWalkRemovesContinuations(p1, web, 1);
  }

  /** The start manifest of the IIIF walk, updated in place. */
  class Manifest {
    var items: seq<Item>
    var others: map<string, Json>

    constructor (page: IiifPage)
      ensures Page() == page
    {
      items, others := page.items, page.others;
    }

    function Page(): IiifPage
      reads this
    {
      IiifPage(items, others)
    }
  }

  /** get_all_iiif: pops the trailing Collection of the start manifest, then
      follows Collection pointers, appending each fetched page's items (less
      its own trailing Collection) to `manifest.items`; returns `manifest`. */
  method GetAllIiif(manifest: Manifest, web: map<Url, IiifPage>, ghost n: nat)
    returns (r: Manifest, outcome: Outcome)
    requires IiifEnds(web, Continuation(manifest.items), n)
    modifies manifest`items
    ensures r == manifest
    ensures manifest.Page() == IiifWalk(old(manifest.Page()), web, n).page
    ensures outcome == IiifWalk(old(manifest.Page()), web, n).outcome
  {
    r := manifest;
    if |manifest.items| == 0 {
      outcome := Raised(EmptyItems);
      return;
    }
    var last := manifest.items[|manifest.items| - 1];
    if !IsCollection(last) {
      outcome := Raised(NoContinuation);
      return;
    }
    ghost var start := Continuation(manifest.items);
    manifest.items := manifest.items[..|manifest.items| - 1];
    var next := last.id;
    ghost var k := n;
    while Truthy(next)
      invariant IiifEnds(web, next, k)
      invariant manifest.others == old(manifest.others)
      invariant FollowIiif(web, next, k).failure == FollowIiif(web, start, n).failure
      invariant manifest.items + Kept(FollowIiif(web, next, k).pages)
                == Trim(old(manifest.items)) + Kept(FollowIiif(web, start, n).pages)
      decreases k
    {
      if next.value !in web {
        outcome := Raised(FetchFailed(next.value));
        return;
      }
      var nextResults := web[next.value];
      var items := nextResults.items;
      if |items| == 0 {
        outcome := Raised(EmptyPage(next.value));
        return;
      }
      FollowIiifKept(web, next, k);
      ghost var kept := Kept(FollowIiif(web, Continuation(items), k - 1).pages);
      ghost var before := manifest.items;
      if IsCollection(items[|items| - 1]) {
        next := items[|items| - 1].id;
        items := items[..|items| - 1];
      } else {
        next := None;
      }
      manifest.items := manifest.items + items;
      k := k - 1;
      assert manifest.items + kept == before + (items + kept);
    }
    outcome := Done;
  }

  // =======================================================================
  // get_search_results: the dispatcher

  /** The decoded body of the first search request. */
  datatype Response = FlatResponse(flat: CursorPage) | TreeResponse(tree: IiifPage)

  /** What get_search_results returns: Python's None or the walked start object. */
  datatype Returned = ReturnedNone | ReturnedResults(results: SearchResults) | ReturnedManifest(manifest: Manifest)

  /** `parameters.get('as') == format`. */
  predicate AsFormat(parameters: map<string, string>, format: string)
  {
    "as" in parameters && parameters["as"] == format
  }

  /** `urljoin(api_base_url, "search")`: the URL every search request goes to. */
  const SearchEndpoint: Url := "https://dcapi.rdc.library.northwestern.edu/api/v2/search"

  /** get_search_results: `response` is the decoded body the search endpoint
      returned for `parameters`, or None when that first request raised (the
      request goes to `SearchEndpoint`; `searchUrl` is ignored, as in the
      source). Only with `allResults` and `as` equal to "iiif" or
      "opensearch" is a walk run, and only then is its chain required to end
      within `n`; otherwise the result is None. */
  method GetSearchResults(searchUrl: Url, parameters: map<string, string>, allResults: bool,
                          response: Option<Response>, flatWeb: map<Url, CursorPage>, treeWeb: map<Url, IiifPage>,
                          ghost n: nat)
    returns (ret: Returned, outcome: Outcome)
    requires allResults && AsFormat(parameters, "opensearch") && response.Some? && response.value.FlatResponse?
             ==> CursorEnds(flatWeb, response.value.flat.pagination.nextUrl, n)
    requires allResults && AsFormat(parameters, "iiif") && response.Some? && response.value.TreeResponse?
             ==> IiifEnds(treeWeb, Continuation(response.value.tree.items), n)
    ensures response.None? ==> ret == ReturnedNone && outcome == Raised(FetchFailed(SearchEndpoint))
    ensures response.Some? && !(allResults && (AsFormat(parameters, "iiif") || AsFormat(parameters, "opensearch")))
            ==> ret == ReturnedNone && outcome == Done
    ensures response.Some? && allResults && AsFormat(parameters, "iiif") ==>
              if response.value.TreeResponse? then
                ret.ReturnedManifest?
                && ret.manifest.Page() == IiifWalk(response.value.tree, treeWeb, n).page
                && outcome == IiifWalk(response.value.tree, treeWeb, n).outcome
              else ret == ReturnedNone && outcome == Raised(WrongShape)
    ensures response.Some? && allResults && AsFormat(parameters, "opensearch") ==>
              if response.value.FlatResponse? then
                ret.ReturnedResults?
                && ret.results.Page() == CursorWalk(response.value.flat, flatWeb, n).page
                && outcome == CursorWalk(response.value.flat, flatWeb, n).outcome
              else ret == ReturnedNone && outcome == Raised(WrongShape)
  {
    if response.None? {
      return ReturnedNone, Raised(FetchFailed(SearchEndpoint));
    }
    var body := response.value;
    if allResults && AsFormat(parameters, "iiif") {
      if !body.TreeResponse? {
        return ReturnedNone, Raised(WrongShape);
      }
      var manifest := new Manifest(body.tree);
      var m;
      m, outcome := GetAllIiif(manifest, treeWeb, n);
      return ReturnedManifest(m), outcome;
    }
    if allResults && AsFormat(parameters, "opensearch") {
      if !body.FlatResponse? {
        return ReturnedNone, Raised(WrongShape);
      }
      var results := new SearchResults(body.flat);
      var s;
      s, outcome := GetAllSearchResults(results, flatWeb, n);
      return ReturnedResults(s), outcome;
    }
    return ReturnedNone, Done;
  }
}
