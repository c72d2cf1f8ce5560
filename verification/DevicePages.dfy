/** Walking the device list page by page. */
module DevicePages {
  import opened Options

  datatype Page<D> = Page(items: seq<D>, total: int)

  const PAGE_SIZE: nat := 500

  /** The items of the first n pages, counted from 1. */
  ghost function Collected<D>(server: nat -> Option<Page<D>>, n: nat): seq<D>
    requires forall k :: 1 <= k <= n ==> server(k).Some?
  {
    if n == 0 then [] else Collected(server, n - 1) + server(n).value.items
  }

  /** The walk ends at page n: it is short, or the announced total has been reached. */
  ghost predicate EndsAt<D>(server: nat -> Option<Page<D>>, n: nat)
    requires forall k :: 1 <= k <= n ==> server(k).Some?
  {
    n >= 1 && (|server(n).value.items| < PAGE_SIZE || |Collected(server, n)| >= server(n).value.total)
  }

  ghost predicate Answers<D>(server: nat -> Option<Page<D>>, n: nat) {
    forall k :: 1 <= k <= n ==> server(k).Some?
  }

  /** The pages up to the first at which the walk ends; nothing if a request fails before. It makes
      at most one request for every page of the largest announced total, and one more. */
  method FetchAllDevices<D>(server: nat -> Option<Page<D>>, ghost bound: nat)
    returns (result: Option<Page<D>>, requests: nat)
    requires forall k :: server(k).Some? ==> server(k).value.total <= bound
    ensures requests >= 1 && requests <= bound / PAGE_SIZE + 1
    ensures Answers(server, requests - 1) && forall k :: 1 <= k < requests ==> !EndsAt(server, k)
    ensures result.Some? <==> server(requests).Some?
    ensures result.Some? ==>
      && Answers(server, requests) && EndsAt(server, requests)
      && result.value == Page(Collected(server, requests), server(requests).value.total)
  {
    var items := [];
    var page := 1;
    while true
      invariant page >= 1 && Answers(server, page - 1) && items == Collected(server, page - 1)
      invariant forall k :: 1 <= k < page ==> !EndsAt(server, k)
      invariant PAGE_SIZE * (page - 1) <= |items| && (page > 1 ==> |items| < bound)
      decreases bound - |items|
    {
      var resp := server(page);
      if resp.None? {
        return None, page;
      }
      items := items + resp.value.items;
      if |resp.value.items| == 0 || |resp.value.items| < PAGE_SIZE || |items| >= resp.value.total {
        return Some(Page(items, resp.value.total)), page;
      }
      page := page + 1;
    }
  }

  /** A server with a fixed fleet. */
  function Serve<D>(fleet: seq<D>): nat -> Option<Page<D>> {
    (page: nat) =>
      if page == 0 then None
      else
        var from: nat := PAGE_SIZE * (page - 1);
        if from >= |fleet| then Some(Page([], |fleet|))
        else Some(Page(fleet[from..if from + PAGE_SIZE < |fleet| then from + PAGE_SIZE else |fleet|], |fleet|))
  }

  lemma {:induction false} CollectedOfFleet<D>(fleet: seq<D>, n: nat)
    ensures Collected(Serve(fleet), n) == fleet[..if PAGE_SIZE * n < |fleet| then PAGE_SIZE * n else |fleet|]
  {
    if n > 0 {
      CollectedOfFleet(fleet, n - 1);
    }
  }

  /** Against a fixed fleet the walk returns exactly the fleet, in order, in as many requests as it
      has pages. */
  lemma FleetIsFetched<D>(fleet: seq<D>, n: nat)
    requires n >= 1 && EndsAt(Serve(fleet), n) && forall k :: 1 <= k < n ==> !EndsAt(Serve(fleet), k)
    ensures Collected(Serve(fleet), n) == fleet && Serve(fleet)(n).value.total == |fleet|
    ensures n == Pages(|fleet|)
  {
    CollectedOfFleet(fleet, n);
    if n > 1 {
      CollectedOfFleet(fleet, n - 1);
      assert !EndsAt(Serve(fleet), n - 1);
    }
  }

  function Pages(size: nat): nat {
    if size == 0 then 1 else (size + 499) / 500
  }

  /** The walk run against a fixed fleet, on which no request fails. */
  method FetchFleet<D>(fleet: seq<D>) returns (result: Option<Page<D>>, requests: nat)
    ensures result == Some(Page(fleet, |fleet|)) && requests == Pages(|fleet|)
  {
    result, requests := FetchAllDevices(Serve(fleet), |fleet|);
    FleetIsFetched(fleet, requests);
  }
}
