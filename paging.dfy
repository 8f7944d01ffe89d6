/** The marker-driven listing loop that both load-balancer kinds run
    (`get_elb_load_balancers`, `get_elbv2_load_balancers`). The service is a
    sequence of responses: the i-th request, whatever its marker, is answered
    by the i-th response. */
module Paging {
  import opened Wrappers
  import opened Sdk

  /** A response that ends the loop: a failed call, or a page with no marker. */
  predicate Stops<T>(r: Call<Page<T>>)
  {
    r.Failed? || r.response.nextMarker.None?
  }

  /** The service ends the listing at some point; without such a response
      the program requests pages forever. */
  ghost predicate ListingEnds<T>(rs: seq<Call<Page<T>>>)
  {
    exists i :: 0 <= i < |rs| && Stops(rs[i])
  }

  /** The index of the response that ends the loop. */
  function FirstStop<T>(rs: seq<Call<Page<T>>>): (k: nat)
    requires ListingEnds(rs)
    ensures k < |rs| && Stops(rs[k])
    ensures forall j :: 0 <= j < k ==> !Stops(rs[j])
  {
    if Stops(rs[0]) then 0
    else
      assert ListingEnds(rs[1..]) by {
        var i :| 0 <= i < |rs| && Stops(rs[i]);
        assert Stops(rs[1..][i - 1]);
      }
      1 + FirstStop(rs[1..])
  }

  /** The items of one response; a page without an item list has none. */
  function PageItems<T>(r: Call<Page<T>>): seq<T>
  {
    if r.Answered? then r.response.items.GetOr([]) else []
  }

  /** The items of the given responses, concatenated in order. */
  function AllItems<T>(rs: seq<Call<Page<T>>>): seq<T>
  {
    if |rs| == 0 then [] else AllItems(rs[..|rs| - 1]) + PageItems(rs[|rs| - 1])
  }

  /** What the listing yields: a failure when a call fails before the last
      page, otherwise every page's items up to and including the first page
      that has no marker. */
  function Listing<T>(rs: seq<Call<Page<T>>>): Result<seq<T>, Failure>
    requires ListingEnds(rs)
  {
    var k := FirstStop(rs);
    if rs[k].Failed? then Err(ListingFailed) else Ok(AllItems(rs[..k + 1]))
  }

  /** The listing loop. Besides the result it returns the marker each
      request carried: none on the first, the previous page's marker on
      every later one, and one request per page up to the last. */
  method ListAll<T>(rs: seq<Call<Page<T>>>) returns (result: Result<seq<T>, Failure>, requests: seq<Marker>)
    requires ListingEnds(rs)
    ensures result == Listing(rs)
    ensures |requests| == FirstStop(rs) + 1
    ensures requests[0] == None
    ensures forall i :: 0 < i < |requests| ==> rs[i - 1].Answered? && requests[i] == rs[i - 1].response.nextMarker
  {
    ghost var k := FirstStop(rs);
    var lbs: seq<T> := [];
    var nextMarker: Marker := None;
    var i := 0;
    requests := [];
    while true
      invariant 0 <= i <= k
      invariant lbs == AllItems(rs[..i])
      invariant |requests| == i
      invariant i == 0 ==> nextMarker == None
      invariant i > 0 ==> requests[0] == None && rs[i - 1].Answered? && nextMarker == rs[i - 1].response.nextMarker
      invariant forall j :: 0 < j < i ==> rs[j - 1].Answered? && requests[j] == rs[j - 1].response.nextMarker
      decreases k - i
    {
      requests := requests + [nextMarker];
      var resp := rs[i];
      if resp.Failed? {
        result := Err(ListingFailed);
        return;
      }
      assert rs[..i + 1][..i] == rs[..i];
      lbs := lbs + resp.response.items.GetOr([]);
      nextMarker := resp.response.nextMarker;
      if nextMarker.None? {
        break;
      }
      i := i + 1;
    }
    result := Ok(lbs);
  }

  /** A well-formed listing, where every call is answered and only the last
      page lacks a marker, yields the concatenation of all its pages after
      exactly as many requests as there are pages. */
  lemma WellFormedListing<T>(rs: seq<Call<Page<T>>>)
    requires |rs| > 0
    requires forall i :: 0 <= i < |rs| ==> rs[i].Answered?
    requires forall i :: 0 <= i < |rs| - 1 ==> rs[i].response.nextMarker.Some?
    requires rs[|rs| - 1].response.nextMarker.None?
    ensures ListingEnds(rs)
    ensures FirstStop(rs) == |rs| - 1
    ensures Listing(rs) == Ok(AllItems(rs))
  {
    assert Stops(rs[|rs| - 1]);
    assert rs[..|rs|] == rs;
  }
}
