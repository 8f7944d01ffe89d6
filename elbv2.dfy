/** The scan of one region's multi-stage load balancers (src/elbv2.rs): list
    them all, classify each by querying its target groups one after the
    other until one shows traffic, and collect one record per load balancer.
    The concurrent tasks of the program run one after the other here; the
    records are compared as a multiset, since the program gives no order. */
module ElbV2 {
  import opened Wrappers
  import opened Utils
  import opened Models
  import opened Sdk
  import opened CloudWatch
  import Paging

  /** The field of a listed multi-stage load balancer that the scan reads. */
  datatype LoadBalancerV2 = LoadBalancerV2(loadBalancerArn: string)

  datatype TargetGroup = TargetGroup(targetGroupArn: string)

  /** The response of `describe_target_groups`; its list may be absent. */
  datatype TargetGroupsOutput = TargetGroupsOutput(targetGroups: Option<seq<TargetGroup>>)

  /** `describe_target_groups` for the load balancer with the given ARN. */
  type DescribeTargetGroups = string -> Call<TargetGroupsOutput>

  /** One classified load balancer; `ElbV2Data::new` is this constructor. */
  datatype ElbV2Data = ElbV2Data(arn: string, state: LoadBalancerState, region: string)

  const Namespace: string := "AWS/ApplicationELB"

  /** `get_elbv2_load_balancers`: the marker loop over this kind's listing. */
  method GetElbv2LoadBalancers(rs: seq<Call<Page<LoadBalancerV2>>>)
    returns (lbs: Result<seq<LoadBalancerV2>, Failure>, requests: seq<Marker>)
    requires Paging.ListingEnds(rs)
    ensures lbs == Paging.Listing(rs)
    ensures |requests| == Paging.FirstStop(rs) + 1
    ensures requests[0] == None
    ensures forall i :: 0 < i < |requests| ==> rs[i - 1].Answered? && requests[i] == rs[i - 1].response.nextMarker
  {
    lbs, requests := Paging.ListAll(rs);
  }

  /** The healthy-host-count metric of one target group of one load balancer. */
  function TargetGroupMetric(lbValue: string, tgValue: string): Metric
  {
    Metric(Namespace, HealthyHostCount, [Dimension("LoadBalancer", lbValue), Dimension("TargetGroup", tgValue)])
  }

  /** The target groups a describe call lists; none when the list is absent. */
  function TargetGroupsOf(output: TargetGroupsOutput): seq<TargetGroup>
  {
    output.targetGroups.GetOr([])
  }

  // ---------------------------------------------------------------------------
  // The specification of `get_elbv2_lb_state`

  /** The loop over target groups from index `i` on: true at the first group
      whose query shows traffic, false when none does, a failure at the
      first group reached whose ARN has too few fields. */
  function ScanFrom(lbValue: string, tgs: seq<TargetGroup>, i: nat, getMetricStats: MetricStats, days: int): Result<bool, Failure>
    requires i <= |tgs|
    decreases |tgs| - i
  {
    if i == |tgs| then Ok(false)
    else
      match ExtractIdFromTgArn(tgs[i].targetGroupArn)
      case None => Err(MalformedArn(tgs[i].targetGroupArn))
      case Some(tgValue) =>
        if ShowsTraffic(getMetricStats(TargetGroupMetric(lbValue, tgValue), days)) then Ok(true)
        else ScanFrom(lbValue, tgs, i + 1, getMetricStats, days)
  }

  /** The metrics that loop queries, in order. */
  function QueriesFrom(lbValue: string, tgs: seq<TargetGroup>, i: nat, getMetricStats: MetricStats, days: int): seq<Metric>
    requires i <= |tgs|
    decreases |tgs| - i
  {
    if i == |tgs| then []
    else
      match ExtractIdFromTgArn(tgs[i].targetGroupArn)
      case None => []
      case Some(tgValue) =>
        var metric := TargetGroupMetric(lbValue, tgValue);
        if ShowsTraffic(getMetricStats(metric, days)) then [metric]
        else [metric] + QueriesFrom(lbValue, tgs, i + 1, getMetricStats, days)
  }

  /** One step of the loop at a group whose ARN has an id. */
  lemma ScanStep(lbValue: string, tgs: seq<TargetGroup>, i: nat, getMetricStats: MetricStats, days: int)
    requires i < |tgs| && ExtractIdFromTgArn(tgs[i].targetGroupArn).Some?
    ensures var metric := TargetGroupMetric(lbValue, ExtractIdFromTgArn(tgs[i].targetGroupArn).value);
      && ScanFrom(lbValue, tgs, i, getMetricStats, days) ==
         (if ShowsTraffic(getMetricStats(metric, days)) then Ok(true)
          else ScanFrom(lbValue, tgs, i + 1, getMetricStats, days))
      && QueriesFrom(lbValue, tgs, i, getMetricStats, days) ==
         (if ShowsTraffic(getMetricStats(metric, days)) then [metric]
          else [metric] + QueriesFrom(lbValue, tgs, i + 1, getMetricStats, days))
  {
  }

  /** The state of one load balancer: list its target groups, then Active
      when the scan finds traffic and Inactive when it does not. */
  function Classification(arn: string, describe: DescribeTargetGroups, getMetricStats: MetricStats, days: int)
    : (state: Result<Option<LoadBalancerState>, Failure>)
    ensures state.Ok? ==> state.value.Some?
  {
    match describe(arn)
    case Failed => Err(TargetGroupListingFailed(arn))
    case Answered(output) =>
      match ExtractIdFromLbArn(arn)
      case None => Err(MalformedArn(arn))
      case Some(lbValue) =>
        match ScanFrom(lbValue, TargetGroupsOf(output), 0, getMetricStats, days)
        case Err(e) => Err(e)
        case Ok(active) => Ok(Some(if active then Active else Inactive))
  }

  /** The metrics queried while classifying one load balancer, in order. */
  function QueriedMetrics(arn: string, describe: DescribeTargetGroups, getMetricStats: MetricStats, days: int): seq<Metric>
  {
    match describe(arn)
    case Failed => []
    case Answered(output) =>
      match ExtractIdFromLbArn(arn)
      case None => []
      case Some(lbValue) => QueriesFrom(lbValue, TargetGroupsOf(output), 0, getMetricStats, days)
  }

  /** `get_elbv2_lb_state`: a loop over the target groups that sets `active`
      and stops at the first group whose values sum to more than zero.
      Besides the state it returns the metrics it queried. */
  method GetElbv2LbState(arn: string, describe: DescribeTargetGroups, getMetricStats: MetricStats, days: int)
    returns (state: Result<Option<LoadBalancerState>, Failure>, queried: seq<Metric>)
    ensures state == Classification(arn, describe, getMetricStats, days)
    ensures queried == QueriedMetrics(arn, describe, getMetricStats, days)
  {
    queried := [];
    var described := describe(arn);
    if described.Failed? {
      state := Err(TargetGroupListingFailed(arn));
      return;
    }
    var targetGroups := described.response.targetGroups.GetOr([]);
    var lbValue := ExtractIdFromLbArn(arn);
    if lbValue.None? {
      state := Err(MalformedArn(arn));
      return;
    }
    var active := false;
    var i := 0;
    while i < |targetGroups|
      invariant 0 <= i <= |targetGroups|
      invariant !active
      invariant ScanFrom(lbValue.value, targetGroups, 0, getMetricStats, days) ==
                ScanFrom(lbValue.value, targetGroups, i, getMetricStats, days)
      invariant QueriesFrom(lbValue.value, targetGroups, 0, getMetricStats, days) ==
                queried + QueriesFrom(lbValue.value, targetGroups, i, getMetricStats, days)
    {
      var tgValue := ExtractIdFromTgArn(targetGroups[i].targetGroupArn);
      if tgValue.None? {
        state := Err(MalformedArn(targetGroups[i].targetGroupArn));
        return;
      }
      var metric := TargetGroupMetric(lbValue.value, tgValue.value);
      ScanStep(lbValue.value, targetGroups, i, getMetricStats, days);
      ghost var before, after := queried, QueriesFrom(lbValue.value, targetGroups, i + 1, getMetricStats, days);
      queried := queried + [metric];
      var stats := getMetricStats(metric, days);
      match stats {
        case Some(result) =>
          var sum := Sum(result.values.GetOr([]));
          if sum > 0.0 {
            active := true;
            break;
          }
        case None =>
      }
      assert before + ([metric] + after) == queried + after;
      i := i + 1;
    }
    state := Ok(Some(if active then Active else Inactive));
  }

  // ---------------------------------------------------------------------------
  // What the classification does

  /** Every listed target group's ARN has a sixth field. */
  ghost predicate WellFormedTargetGroups(tgs: seq<TargetGroup>)
  {
    forall j :: 0 <= j < |tgs| ==> ExtractIdFromTgArn(tgs[j].targetGroupArn).Some?
  }

  /** The query of target group `tg` shows traffic. */
  predicate TargetGroupShowsTraffic(lbValue: string, tg: TargetGroup, getMetricStats: MetricStats, days: int)
    requires ExtractIdFromTgArn(tg.targetGroupArn).Some?
  {
    ShowsTraffic(getMetricStats(TargetGroupMetric(lbValue, ExtractIdFromTgArn(tg.targetGroupArn).value), days))
  }

  lemma {:induction false} ScanFindsTraffic(lbValue: string, tgs: seq<TargetGroup>, i: nat, getMetricStats: MetricStats, days: int)
    requires i <= |tgs|
    requires WellFormedTargetGroups(tgs)
    ensures ScanFrom(lbValue, tgs, i, getMetricStats, days).Ok?
    ensures ScanFrom(lbValue, tgs, i, getMetricStats, days) == Ok(true) <==>
      exists j :: i <= j < |tgs| && TargetGroupShowsTraffic(lbValue, tgs[j], getMetricStats, days)
    decreases |tgs| - i
  {
    if i < |tgs| {
      ScanFindsTraffic(lbValue, tgs, i + 1, getMetricStats, days);
    }
  }

  lemma {:induction false} ScanFailsOnMalformedArn(lbValue: string, tgs: seq<TargetGroup>, i: nat, getMetricStats: MetricStats, days: int)
    requires i <= |tgs|
    ensures ScanFrom(lbValue, tgs, i, getMetricStats, days).Err? ==>
      exists j :: i <= j < |tgs| && ExtractIdFromTgArn(tgs[j].targetGroupArn).None? &&
                  ScanFrom(lbValue, tgs, i, getMetricStats, days).error == MalformedArn(tgs[j].targetGroupArn)
    decreases |tgs| - i
  {
    if i < |tgs| {
      ScanFailsOnMalformedArn(lbValue, tgs, i + 1, getMetricStats, days);
    }
  }

  /** The queried metrics are those of the leading groups, in order. */
  lemma {:induction false} QueriesAreLeadingGroups(lbValue: string, tgs: seq<TargetGroup>, i: nat, getMetricStats: MetricStats, days: int)
    requires i <= |tgs|
    requires WellFormedTargetGroups(tgs)
    ensures var q := QueriesFrom(lbValue, tgs, i, getMetricStats, days);
      && |q| <= |tgs| - i
      && forall j :: 0 <= j < |q| ==>
           q[j] == TargetGroupMetric(lbValue, ExtractIdFromTgArn(tgs[i + j].targetGroupArn).value)
    decreases |tgs| - i
  {
    if i < |tgs| {
      ScanStep(lbValue, tgs, i, getMetricStats, days);
      QueriesAreLeadingGroups(lbValue, tgs, i + 1, getMetricStats, days);
      var q := QueriesFrom(lbValue, tgs, i, getMetricStats, days);
      var rest := QueriesFrom(lbValue, tgs, i + 1, getMetricStats, days);
      if !TargetGroupShowsTraffic(lbValue, tgs[i], getMetricStats, days) {
        forall j | 0 < j < |q|
          ensures q[j] == TargetGroupMetric(lbValue, ExtractIdFromTgArn(tgs[i + j].targetGroupArn).value)
        {
          assert q[j] == rest[j - 1];
          assert i + j == (i + 1) + (j - 1);
        }
      }
    }
  }

  /** The last group queried is the first one that shows traffic. */
  lemma {:induction false} QueriesEndAtFirstTraffic(lbValue: string, tgs: seq<TargetGroup>, i: nat, j: nat, getMetricStats: MetricStats, days: int)
    requires i <= j < |tgs|
    requires WellFormedTargetGroups(tgs)
    requires TargetGroupShowsTraffic(lbValue, tgs[j], getMetricStats, days)
    requires forall m :: i <= m < j ==> !TargetGroupShowsTraffic(lbValue, tgs[m], getMetricStats, days)
    ensures |QueriesFrom(lbValue, tgs, i, getMetricStats, days)| == j - i + 1
    decreases j - i
  {
    ScanStep(lbValue, tgs, i, getMetricStats, days);
    if i < j {
      QueriesEndAtFirstTraffic(lbValue, tgs, i + 1, j, getMetricStats, days);
    }
  }

  /** Without traffic, every group is queried. */
  lemma {:induction false} QueriesAllWithoutTraffic(lbValue: string, tgs: seq<TargetGroup>, i: nat, getMetricStats: MetricStats, days: int)
    requires i <= |tgs|
    requires WellFormedTargetGroups(tgs)
    requires forall m :: i <= m < |tgs| ==> !TargetGroupShowsTraffic(lbValue, tgs[m], getMetricStats, days)
    ensures |QueriesFrom(lbValue, tgs, i, getMetricStats, days)| == |tgs| - i
    decreases |tgs| - i
  {
    if i < |tgs| {
      ScanStep(lbValue, tgs, i, getMetricStats, days);
      QueriesAllWithoutTraffic(lbValue, tgs, i + 1, getMetricStats, days);
    }
  }

  /** A multi-stage load balancer is Active exactly when one of its target
      groups, queried with fixed namespace, metric name and the two ids taken
      from the ARNs, shows traffic; with no target groups it is Inactive. */
  lemma ActiveIffSomeTargetGroupShowsTraffic(arn: string, describe: DescribeTargetGroups, getMetricStats: MetricStats, days: int)
    requires describe(arn).Answered?
    requires ExtractIdFromLbArn(arn).Some?
    requires WellFormedTargetGroups(TargetGroupsOf(describe(arn).response))
    ensures var tgs, lbValue := TargetGroupsOf(describe(arn).response), ExtractIdFromLbArn(arn).value;
      && Classification(arn, describe, getMetricStats, days).Ok?
      && (Classification(arn, describe, getMetricStats, days) == Ok(Some(Active)) <==>
          exists j :: 0 <= j < |tgs| && TargetGroupShowsTraffic(lbValue, tgs[j], getMetricStats, days))
      && (tgs == [] ==> Classification(arn, describe, getMetricStats, days) == Ok(Some(Inactive)))
  {
    ScanFindsTraffic(ExtractIdFromLbArn(arn).value, TargetGroupsOf(describe(arn).response), 0, getMetricStats, days);
  }

  /** The groups queried are the leading ones in listing order, up to and
      including the first that shows traffic, or all of them when none does;
      each query names the load-balancer id and the target-group id taken
      from the two ARNs. */
  lemma QueriesStopAtFirstTraffic(arn: string, describe: DescribeTargetGroups, getMetricStats: MetricStats, days: int)
    requires describe(arn).Answered?
    requires ExtractIdFromLbArn(arn).Some?
    requires WellFormedTargetGroups(TargetGroupsOf(describe(arn).response))
    ensures var tgs, lbValue := TargetGroupsOf(describe(arn).response), ExtractIdFromLbArn(arn).value;
      var q := QueriedMetrics(arn, describe, getMetricStats, days);
      && |q| <= |tgs|
      && (forall j :: 0 <= j < |q| ==>
            q[j] == Metric("AWS/ApplicationELB", "HealthyHostCount",
                           [Dimension("LoadBalancer", lbValue),
                            Dimension("TargetGroup", ExtractIdFromTgArn(tgs[j].targetGroupArn).value)]))
      && (forall j :: 0 <= j < |tgs| && TargetGroupShowsTraffic(lbValue, tgs[j], getMetricStats, days) &&
                      (forall m :: 0 <= m < j ==> !TargetGroupShowsTraffic(lbValue, tgs[m], getMetricStats, days))
                      ==> |q| == j + 1)
      && ((forall j :: 0 <= j < |tgs| ==> !TargetGroupShowsTraffic(lbValue, tgs[j], getMetricStats, days))
          ==> |q| == |tgs|)
  {
    var tgs, lbValue := TargetGroupsOf(describe(arn).response), ExtractIdFromLbArn(arn).value;
    QueriesAreLeadingGroups(lbValue, tgs, 0, getMetricStats, days);
    forall j | 0 <= j < |tgs| && TargetGroupShowsTraffic(lbValue, tgs[j], getMetricStats, days) &&
               (forall m :: 0 <= m < j ==> !TargetGroupShowsTraffic(lbValue, tgs[m], getMetricStats, days))
      ensures |QueriesFrom(lbValue, tgs, 0, getMetricStats, days)| == j + 1
    {
      QueriesEndAtFirstTraffic(lbValue, tgs, 0, j, getMetricStats, days);
    }
    if forall m :: 0 <= m < |tgs| ==> !TargetGroupShowsTraffic(lbValue, tgs[m], getMetricStats, days) {
      QueriesAllWithoutTraffic(lbValue, tgs, 0, getMetricStats, days);
    }
  }

  /** The classification aborts only when the target-group listing fails or
      an ARN it reads has too few fields. */
  lemma ClassificationFailures(arn: string, describe: DescribeTargetGroups, getMetricStats: MetricStats, days: int)
    ensures var state := Classification(arn, describe, getMetricStats, days);
      state.Err? ==>
        || (describe(arn).Failed? && state.error == TargetGroupListingFailed(arn))
        || (ExtractIdFromLbArn(arn).None? && state.error == MalformedArn(arn))
        || (describe(arn).Answered? &&
            exists j :: 0 <= j < |TargetGroupsOf(describe(arn).response)| &&
                        var tgArn := TargetGroupsOf(describe(arn).response)[j].targetGroupArn;
                        ExtractIdFromTgArn(tgArn).None? && state.error == MalformedArn(tgArn))
  {
    if describe(arn).Answered? && ExtractIdFromLbArn(arn).Some? {
      ScanFailsOnMalformedArn(ExtractIdFromLbArn(arn).value, TargetGroupsOf(describe(arn).response), 0, getMetricStats, days);
    }
  }

  /** A group whose query returns nothing is passed over: it is queried,
      and the scan goes on to the next group as if it had not been there. */
  lemma MissingStatsSkipped(lbValue: string, tgs: seq<TargetGroup>, i: nat, getMetricStats: MetricStats, days: int)
    requires i < |tgs|
    requires ExtractIdFromTgArn(tgs[i].targetGroupArn).Some?
    requires getMetricStats(TargetGroupMetric(lbValue, ExtractIdFromTgArn(tgs[i].targetGroupArn).value), days).None?
    ensures ScanFrom(lbValue, tgs, i, getMetricStats, days) == ScanFrom(lbValue, tgs, i + 1, getMetricStats, days)
    ensures QueriesFrom(lbValue, tgs, i, getMetricStats, days) ==
      [TargetGroupMetric(lbValue, ExtractIdFromTgArn(tgs[i].targetGroupArn).value)] +
      QueriesFrom(lbValue, tgs, i + 1, getMetricStats, days)
  {
  }

  /** Three groups whose values sum to 0, 5 and 9: the first two are
      queried, the third is not, and the load balancer is Active. */
  lemma ShortCircuitExample(lbValue: string, tgs: seq<TargetGroup>, getMetricStats: MetricStats, days: int)
    requires |tgs| == 3 && WellFormedTargetGroups(tgs)
    requires getMetricStats(TargetGroupMetric(lbValue, ExtractIdFromTgArn(tgs[0].targetGroupArn).value), days)
             == Some(MetricDataResult(Some([0.0])))
    requires getMetricStats(TargetGroupMetric(lbValue, ExtractIdFromTgArn(tgs[1].targetGroupArn).value), days)
             == Some(MetricDataResult(Some([5.0])))
    requires getMetricStats(TargetGroupMetric(lbValue, ExtractIdFromTgArn(tgs[2].targetGroupArn).value), days)
             == Some(MetricDataResult(Some([9.0])))
    ensures ScanFrom(lbValue, tgs, 0, getMetricStats, days) == Ok(true)
    ensures QueriesFrom(lbValue, tgs, 0, getMetricStats, days) ==
      [TargetGroupMetric(lbValue, ExtractIdFromTgArn(tgs[0].targetGroupArn).value),
       TargetGroupMetric(lbValue, ExtractIdFromTgArn(tgs[1].targetGroupArn).value)]
  {
    assert Sum([0.0]) == 0.0 && Sum([5.0]) == 5.0;
  }

  // ---------------------------------------------------------------------------
  // `process_region`

  /** Every listed load balancer's ARN has a region. */
  ghost predicate AllRegionsKnown(lbs: seq<LoadBalancerV2>)
  {
    forall i :: 0 <= i < |lbs| ==> ExtractRegionFromElbv2Arn(lbs[i].loadBalancerArn).Some?
  }

  /** Every listed load balancer can be classified without aborting. */
  ghost predicate AllClassified(lbs: seq<LoadBalancerV2>, describe: DescribeTargetGroups, getMetricStats: MetricStats, days: int)
  {
    forall i :: 0 <= i < |lbs| ==> Classification(lbs[i].loadBalancerArn, describe, getMetricStats, days).Ok?
  }

  /** The record the scan makes for one load balancer. */
  function Record(lb: LoadBalancerV2, describe: DescribeTargetGroups, getMetricStats: MetricStats, days: int): ElbV2Data
    requires ExtractRegionFromElbv2Arn(lb.loadBalancerArn).Some?
    requires Classification(lb.loadBalancerArn, describe, getMetricStats, days).Ok?
  {
    ElbV2Data(lb.loadBalancerArn, Classification(lb.loadBalancerArn, describe, getMetricStats, days).value.value,
              ExtractRegionFromElbv2Arn(lb.loadBalancerArn).value)
  }

  /** The records of a region, in listing order. */
  function ElbV2Records(lbs: seq<LoadBalancerV2>, describe: DescribeTargetGroups, getMetricStats: MetricStats, days: int)
    : seq<ElbV2Data>
    requires AllRegionsKnown(lbs) && AllClassified(lbs, describe, getMetricStats, days)
  {
    if |lbs| == 0 then []
    else
      var init := lbs[..|lbs| - 1];
      assert AllRegionsKnown(init) && AllClassified(init, describe, getMetricStats, days) by {
        forall i | 0 <= i < |init| ensures init[i] == lbs[i] { }
      }
      ElbV2Records(init, describe, getMetricStats, days) + [Record(lbs[|lbs| - 1], describe, getMetricStats, days)]
  }

  /** One record per listed load balancer, carrying its ARN, its state and
      the region read from the ARN's fourth field. */
  lemma {:induction false} ElbV2RecordsOnePerLoadBalancer(
    lbs: seq<LoadBalancerV2>, describe: DescribeTargetGroups, getMetricStats: MetricStats, days: int)
    requires AllRegionsKnown(lbs) && AllClassified(lbs, describe, getMetricStats, days)
    ensures var records := ElbV2Records(lbs, describe, getMetricStats, days);
      && |records| == |lbs|
      && forall i :: 0 <= i < |lbs| ==>
        && records[i].arn == lbs[i].loadBalancerArn
        && Ok(Some(records[i].state)) == Classification(lbs[i].loadBalancerArn, describe, getMetricStats, days)
        && Some(records[i].region) == ExtractRegionFromElbv2Arn(lbs[i].loadBalancerArn)
  {
    if |lbs| > 0 {
      var init := lbs[..|lbs| - 1];
      assert AllRegionsKnown(init) && AllClassified(init, describe, getMetricStats, days) by {
        forall i | 0 <= i < |init| ensures init[i] == lbs[i] { }
      }
      ElbV2RecordsOnePerLoadBalancer(init, describe, getMetricStats, days);
    }
  }

  /** Classifying one more load balancer extends the records by its record. */
  lemma RecordsExtend(lbs: seq<LoadBalancerV2>, i: nat, describe: DescribeTargetGroups, getMetricStats: MetricStats, days: int)
    requires i < |lbs|
    requires AllRegionsKnown(lbs)
    requires AllClassified(lbs[..i], describe, getMetricStats, days)
    requires Classification(lbs[i].loadBalancerArn, describe, getMetricStats, days).Ok?
    ensures AllClassified(lbs[..i + 1], describe, getMetricStats, days)
    ensures AllRegionsKnown(lbs[..i + 1])
    ensures ElbV2Records(lbs[..i + 1], describe, getMetricStats, days) ==
            ElbV2Records(lbs[..i], describe, getMetricStats, days) + [Record(lbs[i], describe, getMetricStats, days)]
  {
    assert lbs[..i + 1][..i] == lbs[..i];
  }

  /** The `join_all` over the tasks of a region, run one after the other:
      each classifies its load balancer and pushes its record. It aborts at
      the first classification that aborts, and otherwise yields the records
      of `ElbV2Records` in listing order. */
  method RunTasks(lbs: seq<LoadBalancerV2>, regions: seq<string>, describe: DescribeTargetGroups,
                  getMetricStats: MetricStats, days: int)
    returns (data: Result<seq<ElbV2Data>, Failure>)
    requires |regions| == |lbs|
    requires forall j :: 0 <= j < |lbs| ==> ExtractRegionFromElbv2Arn(lbs[j].loadBalancerArn) == Some(regions[j])
    ensures data.Ok? <==> AllClassified(lbs, describe, getMetricStats, days)
    ensures data.Ok? ==> AllRegionsKnown(lbs) && data.value == ElbV2Records(lbs, describe, getMetricStats, days)
    ensures data.Err? ==>
      exists i :: 0 <= i < |lbs| && Classification(lbs[i].loadBalancerArn, describe, getMetricStats, days) == Err(data.error)
  {
    var records: seq<ElbV2Data> := [];
    var i := 0;
    while i < |lbs|
      invariant 0 <= i <= |lbs|
      invariant AllRegionsKnown(lbs)
      invariant AllClassified(lbs[..i], describe, getMetricStats, days)
      invariant records == ElbV2Records(lbs[..i], describe, getMetricStats, days)
    {
      var state, _ := GetElbv2LbState(lbs[i].loadBalancerArn, describe, getMetricStats, days);
      if state.Err? {
        data := Err(state.error);
        return;
      }
      RecordsExtend(lbs, i, describe, getMetricStats, days);
      if state.value.Some? {
        records := records + [ElbV2Data(lbs[i].loadBalancerArn, state.value.value, regions[i])];
      }
      i := i + 1;
    }
    assert lbs[..|lbs|] == lbs;
    data := Ok(records);
  }

  /** `process_region`: list the region's load balancers, read each one's
      region from its ARN, then classify each and collect the records. The
      scan aborts when the listing fails, an ARN has too few fields or a
      classification aborts; otherwise it yields exactly the records of
      `ElbV2Records`, in some order. */
  method ProcessRegion(days: int, rs: seq<Call<Page<LoadBalancerV2>>>, describe: DescribeTargetGroups, getMetricStats: MetricStats)
    returns (data: Result<seq<ElbV2Data>, Failure>)
    requires Paging.ListingEnds(rs)
    ensures var listing := Paging.Listing(rs);
      data.Ok? <==>
        listing.Ok? && AllRegionsKnown(listing.value) && AllClassified(listing.value, describe, getMetricStats, days)
    ensures var listing := Paging.Listing(rs);
      data.Ok? ==> multiset(data.value) == multiset(ElbV2Records(listing.value, describe, getMetricStats, days))
    ensures var listing := Paging.Listing(rs);
      data.Err? ==>
        || (listing.Err? && data.error == ListingFailed)
        || (listing.Ok? &&
            exists i :: 0 <= i < |listing.value| &&
                        var arn := listing.value[i].loadBalancerArn;
                        || (ExtractRegionFromElbv2Arn(arn).None? && data.error == MalformedArn(arn))
                        || Classification(arn, describe, getMetricStats, days) == Err(data.error))
  {
    var listing, _ := GetElbv2LoadBalancers(rs);
    if listing.Err? {
      data := Err(listing.error);
      return;
    }
    var lbs := listing.value;

    // Building the tasks: each load balancer's region, read before any task runs.
    var regions: seq<string> := [];
    var i := 0;
    while i < |lbs|
      invariant 0 <= i <= |lbs|
      invariant |regions| == i
      invariant forall j :: 0 <= j < i ==> ExtractRegionFromElbv2Arn(lbs[j].loadBalancerArn) == Some(regions[j])
    {
      var region := ExtractRegionFromElbv2Arn(lbs[i].loadBalancerArn);
      if region.None? {
        data := Err(MalformedArn(lbs[i].loadBalancerArn));
        return;
      }
      regions := regions + [region.value];
      i := i + 1;
    }

    data := RunTasks(lbs, regions, describe, getMetricStats, days);
  }
}
