/** The shared fetch state and the loop that fills it by following page cursors. */
module FetchData {
  import opened Wrappers
  import opened Figures

  /** The message recorded when a page comes back with a non-ok status. */
  const NotOkMessage := "Response was not ok, please try again"

  /** The parsed body of a page: `{ results, next }`; `next` may be null. */
  datatype Page = Page(results: seq<Figure>, next: Option<string>)

  /** What awaiting `fetch(locator)` and its body yields: a rejection carrying the
      error's message, or a response with its `ok` flag and its parsed page. */
  datatype Response = Rejected(message: string) | Received(ok: bool, page: Page)

  /** The network, as the response each locator would give. */
  type Network = string -> Response

  /** `while (nextUrl)`: a locator is followed when it is present and not empty. */
  predicate Truthy(cursor: Option<string>)
    ensures Truthy(cursor) <==> cursor != None && cursor != Some("")
  {
    cursor.Some? && cursor.value != ""
  }

  predicate PageOk(r: Response) {
    r.Received? && r.ok
  }

  /** The message a failed response leaves in `error`: none exactly for an ok response,
      the rejection's own message, or the fixed message for a response that is not ok. */
  function FailureOf(r: Response): (f: Option<string>)
    ensures f.None? <==> PageOk(r)
    ensures r.Rejected? ==> f == Some(r.message)
    ensures r.Received? && !r.ok ==> f == Some(NotOkMessage)
  {
    match r
    case Rejected(m) => Some(m)
    case Received(ok, _) => if ok then None else Some(NotOkMessage)
  }

  /** Following cursors from `cursor` stops (a failure or a falsy `next`) within `fuel` requests. */
  ghost predicate ChainEnds(network: Network, cursor: Option<string>, fuel: nat)
    decreases fuel
  {
    !Truthy(cursor) ||
    (fuel > 0 &&
      match network(cursor.value)
      case Rejected(_) => true
      case Received(ok, page) => !ok || ChainEnds(network, page.next, fuel - 1))
  }

  datatype Outcome = Completed(items: seq<Figure>) | Failed(message: string)

  /** How a fetch cycle ends, and the locators it requested, in order. */
  datatype Trace = Trace(outcome: Outcome, requested: seq<string>)

  /** `items` followed by the pages of `t`; a failure stays a failure. */
  function Resume(items: seq<Figure>, log: seq<string>, t: Trace): Trace {
    Trace(
      match t.outcome
      case Completed(rest) => Completed(items + rest)
      case Failed(m) => Failed(m),
      log + t.requested)
  }

  /** One fetch cycle from `cursor`, page by page. */
  function Follow(network: Network, cursor: Option<string>, fuel: nat): (t: Trace)
    requires ChainEnds(network, cursor, fuel)
    ensures Truthy(cursor) <==> t.requested != []
    ensures t.requested != [] ==> t.requested[0] == cursor.value
    ensures forall u :: u in t.requested ==> u != ""
    ensures |t.requested| <= fuel
    decreases fuel
  {
    if !Truthy(cursor) then Trace(Completed([]), [])
    else
      match network(cursor.value)
      case Rejected(m) => Trace(Failed(m), [cursor.value])
      case Received(ok, page) =>
        if !ok then Trace(Failed(NotOkMessage), [cursor.value])
        else Resume(page.results, [cursor.value], Follow(network, page.next, fuel - 1))
  }

  /** The `results` of the pages at `locators`, concatenated in order. */
  function ConcatResults(network: Network, locators: seq<string>): seq<Figure>
    requires forall u :: u in locators ==> PageOk(network(u))
  {
    if locators == [] then []
    else
      assert locators[0] in locators;
      assert PageOk(network(locators[0]));
      network(locators[0]).page.results + ConcatResults(network, locators[1..])
  }

  /** The page at `req[i]` was ok and its `next` names `req[i + 1]`, which is not empty. */
  ghost predicate Linked(network: Network, req: seq<string>, i: int) {
    && 0 <= i < |req| - 1
    && PageOk(network(req[i]))
    && network(req[i]).page.next == Some(req[i + 1])
    && req[i + 1] != ""
  }

  ghost predicate Chained(network: Network, req: seq<string>) {
    forall i :: 0 <= i < |req| - 1 ==> Linked(network, req, i)
  }

  /** The requested locators form a chain: each page before the last was ok and its
      `next` is the locator requested after it. */
  lemma {:induction false} FollowRequestsChain(network: Network, cursor: Option<string>, fuel: nat)
    requires ChainEnds(network, cursor, fuel)
    ensures Chained(network, Follow(network, cursor, fuel).requested)
    decreases fuel
  {
    if Truthy(cursor) && PageOk(network(cursor.value)) {
      var page := network(cursor.value).page;
      FollowRequestsChain(network, page.next, fuel - 1);
      var rest := Follow(network, page.next, fuel - 1).requested;
      var req := Follow(network, cursor, fuel).requested;
      assert req == [cursor.value] + rest;
      forall i | 0 <= i < |req| - 1
        ensures Linked(network, req, i)
      {
        if i > 0 {
          assert Linked(network, rest, i - 1);
          assert req[i] == rest[i - 1] && req[i + 1] == rest[i];
        } else {
          assert req[0] == cursor.value && req[1] == rest[0];
        }
      }
    }
  }

  /** A completed cycle saw only ok pages, ended on a page without a usable `next`, and
      collected exactly the concatenation of their `results` in the order requested. */
  lemma {:induction false} FollowCompletedItems(network: Network, cursor: Option<string>, fuel: nat)
    requires ChainEnds(network, cursor, fuel)
    requires Follow(network, cursor, fuel).outcome.Completed?
    ensures var t := Follow(network, cursor, fuel);
      && (forall u :: u in t.requested ==> PageOk(network(u)))
      && t.outcome.items == ConcatResults(network, t.requested)
      && (t.requested != [] ==> !Truthy(network(t.requested[|t.requested| - 1]).page.next))
    decreases fuel
  {
    if Truthy(cursor) {
      var page := network(cursor.value).page;
      FollowCompletedItems(network, page.next, fuel - 1);
      var rest := Follow(network, page.next, fuel - 1);
      var t := Follow(network, cursor, fuel);
      assert t.requested == [cursor.value] + rest.requested;
      assert t.requested[1..] == rest.requested;
      if rest.requested != [] {
        assert t.requested[|t.requested| - 1] == rest.requested[|rest.requested| - 1];
      }
    }
  }

  /** A failed cycle stopped at the first failing response: every page before it was ok,
      and the recorded message is that response's. */
  lemma {:induction false} FollowFailedStops(network: Network, cursor: Option<string>, fuel: nat)
    requires ChainEnds(network, cursor, fuel)
    requires Follow(network, cursor, fuel).outcome.Failed?
    ensures var t := Follow(network, cursor, fuel);
      && t.requested != []
      && FailureOf(network(t.requested[|t.requested| - 1])) == Some(t.outcome.message)
      && (forall i :: 0 <= i < |t.requested| - 1 ==> PageOk(network(t.requested[i])))
    decreases fuel
  {
    if PageOk(network(cursor.value)) {
      var page := network(cursor.value).page;
      FollowFailedStops(network, page.next, fuel - 1);
      var rest := Follow(network, page.next, fuel - 1);
      var t := Follow(network, cursor, fuel);
      assert t.requested == [cursor.value] + rest.requested;
      forall i | 0 <= i < |t.requested| - 1
        ensures PageOk(network(t.requested[i]))
      {
        if i > 0 { assert t.requested[i] == rest.requested[i - 1]; }
      }
    }
  }

  /** `while (nextUrl)`: after an ok page the cycle requests another locator exactly when
      that page's `next` is truthy, so it stops exactly on a null or empty `next`. */
  lemma FollowContinuesIffTruthyNext(network: Network, cursor: Option<string>, fuel: nat)
    requires ChainEnds(network, cursor, fuel)
    ensures var req := Follow(network, cursor, fuel).requested;
      forall i :: 0 <= i < |req| && PageOk(network(req[i])) ==>
        (i < |req| - 1 <==> Truthy(network(req[i]).page.next))
  {
    var t := Follow(network, cursor, fuel);
    var req := t.requested;
    FollowRequestsChain(network, cursor, fuel);
    if t.outcome.Completed? {
      FollowCompletedItems(network, cursor, fuel);
    } else {
      FollowFailedStops(network, cursor, fuel);
    }
    forall i | 0 <= i < |req| && PageOk(network(req[i]))
      ensures i < |req| - 1 <==> Truthy(network(req[i]).page.next)
    {
      if i < |req| - 1 {
        assert Linked(network, req, i);
      }
    }
  }

  /** The fuel is only a bound: any sufficient amount gives the same cycle. */
  lemma {:induction false} FollowFuelIrrelevant(network: Network, cursor: Option<string>, f1: nat, f2: nat)
    requires ChainEnds(network, cursor, f1) && ChainEnds(network, cursor, f2)
    ensures Follow(network, cursor, f1) == Follow(network, cursor, f2)
    decreases f1
  {
    if Truthy(cursor) && PageOk(network(cursor.value)) {
      FollowFuelIrrelevant(network, network(cursor.value).page.next, f1 - 1, f2 - 1);
    }
  }

  /** One request of a cycle: a failing response ends it, an ok one continues from its `next`. */
  lemma FollowUnfold(network: Network, url: string, fuel: nat)
    requires ChainEnds(network, Some(url), fuel) && url != ""
    ensures FailureOf(network(url)).Some? ==>
      Follow(network, Some(url), fuel) == Trace(Failed(FailureOf(network(url)).value), [url])
    ensures PageOk(network(url)) ==>
      var page := network(url).page;
      && ChainEnds(network, page.next, fuel - 1)
      && Follow(network, Some(url), fuel) == Resume(page.results, [url], Follow(network, page.next, fuel - 1))
  {
  }

  lemma ResumeTwice(a: seq<Figure>, la: seq<string>, b: seq<Figure>, lb: seq<string>, t: Trace)
    ensures Resume(a, la, Resume(b, lb, t)) == Resume(a + b, la + lb, t)
  {
    assert la + (lb + t.requested) == (la + lb) + t.requested;
    if t.outcome.Completed? {
      assert a + (b + t.outcome.items) == (a + b) + t.outcome.items;
    }
  }

  /** The state the data hook holds and shares with both views. */
  class Store {
    var data: seq<Figure>
    var loading: bool
    var error: Option<string>
    var currentPage: int
    /** The locators requested so far, in order. */
    ghost var requests: seq<string>

    /** The hook's initial state: no data, loading, no error, first page. */
    constructor ()
      ensures data == [] && loading && error == None && currentPage == 1
      ensures requests == []
    {
      data := [];
      loading := true;
      error := None;
      currentPage := 1;
      requests := [];
    }

    /** `setCurrentPage`: no clamping; the views guard their calls. */
    method SetCurrentPage(page: int)
      modifies this`currentPage
      ensures currentPage == page
    {
      currentPage := page;
    }

    /** `fetchAllData`: follow `next` from `initialUrl`, append each page's `results`,
        abandon everything on the first failure, and clear `loading` at the end. */
    method FetchAllData(network: Network, initialUrl: string, ghost fuel: nat)
      requires ChainEnds(network, Some(initialUrl), fuel)
      modifies this`data, this`loading, this`error, this`requests
      ensures var t := Follow(network, Some(initialUrl), fuel);
        && requests == old(requests) + t.requested
        && !loading
        && match t.outcome
           case Completed(items) => data == items && error == old(error)
           case Failed(m) => data == old(data) && error == Some(m)
    {
      loading := true;
      var allData: seq<Figure> := [];
      var nextUrl: Option<string> := Some(initialUrl);
      var failure: Option<string> := None;
      ghost var left := fuel;
      ghost var log: seq<string> := [];
      while Truthy(nextUrl) && failure.None?
        invariant ChainEnds(network, nextUrl, left)
        invariant requests == old(requests) + log
        invariant data == old(data)
        invariant failure.None? ==> error == old(error)
        invariant failure.None? ==>
          Follow(network, Some(initialUrl), fuel) == Resume(allData, log, Follow(network, nextUrl, left))
        invariant failure.Some? ==>
          Follow(network, Some(initialUrl), fuel) == Trace(Failed(failure.value), log)
        decreases left, failure.None?
      {
        var url := nextUrl.value;
        var response := network(url);
        FollowUnfold(network, url, left);
        requests := requests + [url];
        match response {
          case Rejected(m) =>
            failure := Some(m);
          case Received(ok, page) =>
            if !ok {
              error := Some(NotOkMessage);
              failure := Some(NotOkMessage);
            } else {
              ResumeTwice(allData, log, page.results, [url], Follow(network, page.next, left - 1));
              allData := allData + page.results;
              nextUrl := page.next;
              left := left - 1;
            }
        }
        log := log + [url];
      }
      if failure.None? {
        data := allData;
      } else {
        error := failure;
      }
      loading := false;
    }
  }

  /** Three ok pages holding two, two and one figure, linked by `next`. */
  function ThreePages(a: Figure, b: Figure, c: Figure, d: Figure, e: Figure): Network {
    (u: string) =>
      if u == "page1" then Received(true, Page([a, b], Some("page2")))
      else if u == "page2" then Received(true, Page([c, d], Some("page3")))
      else if u == "page3" then Received(true, Page([e], None))
      else Rejected("Failed to fetch")
  }

  /** A fresh store fed three linked pages ends with all five figures in page order,
      not loading and without an error, after exactly three requests. */
  method ThreePageCycle(a: Figure, b: Figure, c: Figure, d: Figure, e: Figure)
    returns (data: seq<Figure>, loading: bool, error: Option<string>, ghost requested: seq<string>)
    ensures data == [a, b, c, d, e] && !loading && error == None
    ensures requested == ["page1", "page2", "page3"]
  {
    var network := ThreePages(a, b, c, d, e);
    var store := new Store();
    assert ChainEnds(network, None, 0);
    assert ChainEnds(network, Some("page3"), 1);
    assert ChainEnds(network, Some("page2"), 2);
    assert ChainEnds(network, Some("page1"), 3);
    store.FetchAllData(network, "page1", 3);
    data, loading, error, requested := store.data, store.loading, store.error, store.requests;
  }

  /** A fresh store whose first page answers with a non-ok status keeps no data, stops
      loading, records the not-ok message, and requests nothing after that page. */
  method FirstPageNotOk(first: Page)
    returns (data: seq<Figure>, loading: bool, error: Option<string>, ghost requested: seq<string>)
    ensures data == [] && !loading && error == Some(NotOkMessage)
    ensures requested == ["page1"]
  {
    var network: Network := (u: string) => Received(false, first);
    var store := new Store();
    assert ChainEnds(network, Some("page1"), 1);
    store.FetchAllData(network, "page1", 1);
    data, loading, error, requested := store.data, store.loading, store.error, store.requests;
  }
}
