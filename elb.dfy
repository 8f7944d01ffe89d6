/** The scan of one region's classic load balancers (src/elb.rs): list them
    all, classify each from its healthy-host count, and collect one record per
    load balancer. The concurrent tasks of the program run one after the
    other here; the records are compared as a multiset, since the program
    gives no order. */
module Elb {
  import opened Wrappers
  import opened Utils
  import opened Models
  import opened Sdk
  import opened CloudWatch
  import Paging

  /** The fields of a listed classic load balancer that the scan reads. */
  datatype LoadBalancerDescription = LoadBalancerDescription(loadBalancerName: string, dnsName: string)

  /** One classified load balancer; `ElbData::new` is this constructor. */
  datatype ElbData = ElbData(name: string, state: LoadBalancerState, region: string)

  const Namespace: string := "AWS/ELB"

  /** `get_elb_load_balancers`: the marker loop over this kind's listing. */
  method GetElbLoadBalancers(rs: seq<Call<Page<LoadBalancerDescription>>>)
    returns (lbs: Result<seq<LoadBalancerDescription>, Failure>, requests: seq<Marker>)
    requires Paging.ListingEnds(rs)
    ensures lbs == Paging.Listing(rs)
    ensures |requests| == Paging.FirstStop(rs) + 1
    ensures requests[0] == None
    ensures forall i :: 0 < i < |requests| ==> rs[i - 1].Answered? && requests[i] == rs[i - 1].response.nextMarker
  {
    lbs, requests := Paging.ListAll(rs);
  }

  /** The dimension value of the query: what follows the last `:` of the
      name, or the whole name when it has none. */
  function DimensionValue(name: string): (value: string)
    ensures ':' !in value
    ensures ':' !in name ==> value == name
    ensures ':' in name ==> exists k :: 0 <= k < |name| && name[k] == ':' && value == name[k + 1..]
  {
    var parts := Split(name, ':');
    LastPiece(name, ':');
    parts[|parts| - 1]
  }

  /** The healthy-host-count metric of one classic load balancer. */
  function ElbMetric(name: string): Metric
  {
    Metric(Namespace, HealthyHostCount, [Dimension("LoadBalancerName", DimensionValue(name))])
  }

  /** `get_elb_lb_state`: Active when the query's values sum to more than
      zero, Inactive otherwise, also when the query failed. It never answers
      None. */
  function GetElbLbState(name: string, getMetricStats: MetricStats, days: int): (state: Option<LoadBalancerState>)
    ensures state.Some?
    ensures state == Some(Active) <==> ShowsTraffic(getMetricStats(ElbMetric(name), days))
    ensures getMetricStats(ElbMetric(name), days).None? ==> state == Some(Inactive)
  {
    match getMetricStats(ElbMetric(name), days)
    case Some(stats) =>
      var sum := Sum(stats.values.GetOr([]));
      if sum > 0.0 then Some(Active) else Some(Inactive)
    case None => Some(Inactive)
  }

  /** With non-negative healthy-host counts, a classic load balancer is
      Active exactly when its query returned a value list holding a positive
      count. */
  lemma ActiveIffPositiveCount(name: string, getMetricStats: MetricStats, days: int)
    requires var stats := getMetricStats(ElbMetric(name), days);
      stats.Some? && stats.value.values.Some? ==> NonNegative(stats.value.values.value)
    ensures var stats := getMetricStats(ElbMetric(name), days);
      GetElbLbState(name, getMetricStats, days) == Some(Active) <==>
        stats.Some? && stats.value.values.Some? &&
        exists i :: 0 <= i < |stats.value.values.value| && stats.value.values.value[i] > 0.0
  {
    ShowsTrafficIffPositiveValue(getMetricStats(ElbMetric(name), days));
  }

  /** Every listed load balancer's DNS name has a region. */
  ghost predicate AllRegionsKnown(lbs: seq<LoadBalancerDescription>)
  {
    forall i :: 0 <= i < |lbs| ==> ExtractRegionFromElbDns(lbs[i].dnsName).Some?
  }

  /** The record the scan makes for one load balancer. */
  function Record(lb: LoadBalancerDescription, getMetricStats: MetricStats, days: int): ElbData
    requires ExtractRegionFromElbDns(lb.dnsName).Some?
  {
    ElbData(lb.loadBalancerName, GetElbLbState(lb.loadBalancerName, getMetricStats, days).value,
            ExtractRegionFromElbDns(lb.dnsName).value)
  }

  /** The records of a region, in listing order. */
  function ElbRecords(lbs: seq<LoadBalancerDescription>, getMetricStats: MetricStats, days: int): seq<ElbData>
    requires AllRegionsKnown(lbs)
  {
    if |lbs| == 0 then []
    else ElbRecords(lbs[..|lbs| - 1], getMetricStats, days) + [Record(lbs[|lbs| - 1], getMetricStats, days)]
  }

  /** One record per listed load balancer, carrying its name, its state and
      the region read from its DNS name. */
  lemma {:induction false} ElbRecordsOnePerLoadBalancer(lbs: seq<LoadBalancerDescription>, getMetricStats: MetricStats, days: int)
    requires AllRegionsKnown(lbs)
    ensures var records := ElbRecords(lbs, getMetricStats, days);
      && |records| == |lbs|
      && forall i :: 0 <= i < |lbs| ==>
        && records[i].name == lbs[i].loadBalancerName
        && Some(records[i].state) == GetElbLbState(lbs[i].loadBalancerName, getMetricStats, days)
        && Some(records[i].region) == ExtractRegionFromElbDns(lbs[i].dnsName)
  {
    if |lbs| > 0 {
      var init := lbs[..|lbs| - 1];
      assert AllRegionsKnown(init) by {
        forall i | 0 <= i < |init| ensures ExtractRegionFromElbDns(init[i].dnsName).Some? {
          assert init[i] == lbs[i];
        }
      }
      ElbRecordsOnePerLoadBalancer(init, getMetricStats, days);
    }
  }

  /** `process_region`: list the region's load balancers, read each one's
      region from its DNS name, then classify each and collect the records.
      The scan aborts when the listing fails or a DNS name has too few
      labels; otherwise it yields exactly the records of `ElbRecords`, in
      some order. */
  method ProcessRegion(days: int, rs: seq<Call<Page<LoadBalancerDescription>>>, getMetricStats: MetricStats)
    returns (data: Result<seq<ElbData>, Failure>)
    requires Paging.ListingEnds(rs)
    ensures var listing := Paging.Listing(rs);
      data.Ok? <==> listing.Ok? && AllRegionsKnown(listing.value)
    ensures var listing := Paging.Listing(rs);
      data.Ok? ==> multiset(data.value) == multiset(ElbRecords(listing.value, getMetricStats, days))
    ensures var listing := Paging.Listing(rs);
      data.Err? ==>
        || (listing.Err? && data.error == ListingFailed)
        || (listing.Ok? &&
            exists i :: 0 <= i < |listing.value| &&
                        ExtractRegionFromElbDns(listing.value[i].dnsName).None? &&
                        data.error == MalformedDnsName(listing.value[i].dnsName))
  {
    var listing, _ := GetElbLoadBalancers(rs);
    if listing.Err? {
      data := Err(listing.error);
      return;
    }
    var lbs := listing.value;

    // Building the tasks: each load balancer's region, read before any task runs.
    var regions: seq<string> := [];
    var i := 0;
    while i < |lbs|
      invariant 0 <= i <= |lbs|
      invariant |regions| == i
      invariant forall j :: 0 <= j < i ==> ExtractRegionFromElbDns(lbs[j].dnsName) == Some(regions[j])
    {
      var region := ExtractRegionFromElbDns(lbs[i].dnsName);
      if region.None? {
        data := Err(MalformedDnsName(lbs[i].dnsName));
        return;
      }
      regions := regions + [region.value];
      i := i + 1;
    }

    // Running the tasks, one after the other; each pushes its record.
    var records: seq<ElbData> := [];
    i := 0;
    while i < |lbs|
      invariant 0 <= i <= |lbs|
      invariant AllRegionsKnown(lbs[..i])
      invariant records == ElbRecords(lbs[..i], getMetricStats, days)
    {
      var state := GetElbLbState(lbs[i].loadBalancerName, getMetricStats, days);
      if state.Some? {
        records := records + [ElbData(lbs[i].loadBalancerName, state.value, regions[i])];
      }
      assert lbs[..i + 1][..i] == lbs[..i];
      i := i + 1;
    }
    assert lbs[..|lbs|] == lbs;
    data := Ok(records);
  }
}
