# aws-load-balancers-janitor, modelled in Dafny

The janitor scans one AWS region for idle load balancers. It handles two
kinds:

- **Classic (single-stage) load balancers.** The scan lists them with a
  marker-driven pagination loop. It asks CloudWatch for each one's
  `HealthyHostCount` in the `AWS/ELB` namespace. A load balancer is Active
  when the returned values sum to more than zero, and Inactive otherwise,
  including when the query returned nothing.
- **Multi-stage (ELBv2) load balancers.** The scan lists them with the same
  loop. For each one it lists the target groups and queries them in order,
  each with the load-balancer id and the target-group id cut out of their
  ARNs. It stops at the first group whose values sum to more than zero.

Each scanned load balancer gives one record: its name or ARN, its state, and
the region read from its DNS name or its ARN. The program also parses and
prints the run option (`list`/`delete`), the list format (`tabled`/`csv`)
and the state.

The model has one module per source file, plus four shared ones.

**Per source file:**
- `Utils` (`src/utils.rs`).
- `Models` (`src/models.rs`).
- `Elb` (`src/elb.rs`).
- `ElbV2` (`src/elbv2.rs`).

**Shared:**
- `Wrappers`: Rust's `Option` and `Result`.
- `Sdk`: the outcome of one service call, one listing page, and the ways a
  region's scan aborts.
- `CloudWatch`: the metric descriptor, the metric query as an input, and the
  activity signal read from its result.
- `Paging`: the listing loop, which both kinds share.

**How the outside world is modelled:**
- **Services as inputs.**
  - A listing service is a sequence of responses; the i-th request is
    answered by the i-th response.
  - `describe_target_groups` is a function from a load-balancer ARN to a
    call outcome.
  - `get_metric_stats` is a function from a metric and a number of days to
    an optional result.
- **Panics become errors.** Every `unwrap` of a call result, and of an
  extracted ARN or DNS field, becomes an explicit `Err(Failure)`: a failed
  call, an ARN with too few fields, or a DNS name with too few labels.
- **Concurrency.** The per-load-balancer tasks of `process_region` run one
  after the other. The result is compared with the specified records as a
  multiset, because the program fixes no order.

The imperative code stays imperative:
- The listing loop (`Paging.ListAll`) is a `while` loop proved against the
  function `Paging.Listing`.
- The target-group loop (`ElbV2.GetElbv2LbState`) keeps the `active` flag and
  the `break`, and is proved against `ElbV2.Classification` and
  `ElbV2.QueriedMetrics`.
- Both `process_region`s are loops proved against the record functions
  `Elb.ElbRecords` and `ElbV2.ElbV2Records`.

Two facts about the program shape its model:

- The multi-stage path always queries the `AWS/ApplicationELB` namespace
  (src/elbv2.rs:139), whatever the kind of load balancer.
- The program has no VPC filter, no limit on concurrent queries and no
  credential handling, so the model has none either.

## Model

| member | source | states |
|---|---|---|
| Utils.Split | src/utils.rs:2 | Rust's `split` on one character; `SplitPieces` counts its pieces and shows that none holds the separator, and `JoinSplit`/`SplitJoin` make it the inverse of `Join` |
| Utils.Join | src/utils.rs:5 | Rust's `join` with one separator; `JoinSplit` and `SplitJoin` make it the inverse of `Split` |
| Utils.ExtractIdFromLbArn | src/utils.rs:1-9 | `extract_id_from_lb_arn`; `LbIdIsSixthFieldTail` and `ExtractIdsOfArn` state what it returns |
| Utils.ExtractIdFromTgArn | src/utils.rs:11-19 | `extract_id_from_tg_arn`; `TgIdIsSixthField` and `ExtractIdsOfArn` state what it returns |
| Utils.ExtractRegionFromElbv2Arn | src/utils.rs:21-28 | `extract_region_from_elbv2_arn`; `Elbv2RegionIsFourthField` and `ExtractRegionOfArn` state what it returns |
| Utils.ExtractRegionFromElbDns | src/utils.rs:30-37 | `extract_region_from_elb_dns`; `ElbRegionIsSecondLabel` and `ExtractRegionOfDnsName` state what it returns |
| Utils.SplitPieces | src/utils.rs:2 | splitting on one character gives one more piece than there are separators, and no piece contains the separator |
| Utils.JoinSplit | src/utils.rs:14-15 | joining the pieces of a split with the same separator gives back the original string |
| Utils.SplitJoin | src/utils.rs:14-15 | splitting the join of separator-free pieces gives back those pieces |
| Utils.SplitConcat | src/utils.rs:2 | splitting `a:b` yields the pieces of `a` followed by the pieces of `b` |
| Utils.SplitLeadingFields | src/utils.rs:2-3 | text that is empty or starts with a separator, appended after some fields, leaves those leading fields unchanged |
| Utils.JoinSplitTail | src/utils.rs:4-5 | the pieces after the first, joined again, are exactly what follows the first separator |
| Utils.AfterFirst | src/utils.rs:4-5 | the result is empty without the character, and otherwise is what follows its first occurrence |
| Utils.LastPiece | src/elb.rs:110 | the last piece of a split, Rust's `.last()`, is the whole string when it has no separator, and otherwise the separator-free text after the last separator |
| Utils.LbIdIsSixthFieldTail | src/utils.rs:1-9 | `extract_id_from_lb_arn` is None exactly when the ARN has fewer than six `:`-fields; otherwise it is what follows the first `/` of the sixth field, and it contains no `:` |
| Utils.TgIdIsSixthField | src/utils.rs:11-19 | `extract_id_from_tg_arn` is None exactly when the ARN has fewer than six `:`-fields; otherwise it is the sixth field unchanged, and it contains no `:` |
| Utils.Elbv2RegionIsFourthField | src/utils.rs:21-28 | `extract_region_from_elbv2_arn` is None exactly when the ARN has fewer than four `:`-fields; otherwise it is the fourth field, and it contains no `:` |
| Utils.ElbRegionIsSecondLabel | src/utils.rs:30-37 | `extract_region_from_elb_dns` is None exactly when the name has at most two `.`-labels; otherwise it is the second label, and it contains no `.` |
| Utils.ExtractIdsOfArn | src/utils.rs:1-19 | for `f0:…:f4:resource`, optionally followed by more `:`-fields, the target-group id is `resource` and the load-balancer id is what follows the first `/` of `resource` |
| Utils.ExtractRegionOfArn | src/utils.rs:21-28 | for `f0:f1:f2:region`, optionally followed by more `:`-fields, the region is `region` |
| Utils.ExtractRegionOfDnsName | src/utils.rs:30-37 | for `host.region.rest`, with `host` and `region` free of dots, the region is `region` |
| Utils.LbIdDropsFirstSegmentOfTgId | src/utils.rs:4-5 | on one ARN, the load-balancer id is the target-group id with its first `/`-segment and that `/` removed, and is empty when the id has no `/` |
| Utils.IdsIgnoreTrailingFields | src/utils.rs:2-5 | appending more `:`-fields after the sixth changes neither id |
| Models.SerializeRunOption | src/models.rs:15-25 | the lower-case name of each option; `DeserializeSerialize` and `RunOptionFromStrSerialize` state how it reads back |
| Models.DeserializeRunOption | src/models.rs:28-39 | exact-match deserialization; `DeserializeIsExact` and `DeserializeSerialize` state its results |
| Models.RunOptionDisplay | src/models.rs:52-60 | the capitalised name of each option; `RunOptionDebug` and `RunOptionFromStrDisplay` relate it to Debug and to `from_str` |
| Models.ListFormatDisplay | src/models.rs:89-96 | the capitalised name of each format; `ListFormatDebug` and `ListFormatFromStrDisplay` relate it to Debug and to `from_str` |
| Models.ListFormatFromStr | src/models.rs:98-108 | case-insensitive parsing of a format; `ListFormatFromStrAccepts` states what it accepts |
| Models.StateDisplay | src/models.rs:125-132 | the name of each state; `StateDebug` and `StateDisplayInjective` relate it to Debug and tell the states apart |
| Models.ToLower | src/models.rs:66 | lower-casing keeps the length and lower-cases each ASCII letter |
| Models.LowerIffCaseVariant | src/models.rs:66 | a string lower-cases to a lower-case word exactly when it spells that word with each letter in either case |
| Models.RunOptionFromStr | src/models.rs:65-71 | `from_str` never yields `Unknown` |
| Models.RunOptionFromStrAccepts | src/models.rs:65-71 | `from_str` yields List or Delete exactly for the case variants of "list" and "delete", and an error for every other string |
| Models.DeserializeSerialize | src/models.rs:15-40 | serializing and then deserializing gives back every option, `Unknown` included |
| Models.DeserializeIsExact | src/models.rs:28-39 | deserializing fails exactly on a value that is not a string; deserializing a string never fails: only "list" and "delete" give List and Delete, and every other string gives Unknown |
| Models.DeserializeDiffersFromFromStr | src/models.rs:34-38 | "List" deserializes to Unknown, while `from_str` accepts "List" and "DELETE" |
| Models.RunOptionFromStrDisplay | src/models.rs:52-71 | `from_str` of the displayed text gives back List and Delete, and rejects the text of Unknown |
| Models.RunOptionFromStrSerialize | src/models.rs:20-24 | `from_str` of the serialized text gives back List and Delete, and rejects "unknown" |
| Models.RunOptionDebug | src/models.rs:42-60 | Debug prints the same text as Display |
| Models.ListFormatDebug | src/models.rs:80-96 | Debug prints the same text as Display |
| Models.ListFormatFromStrAccepts | src/models.rs:98-108 | `from_str` yields Tabled or Csv exactly for the case variants of "tabled" and "csv", and an error otherwise |
| Models.ListFormatFromStrDisplay | src/models.rs:89-108 | `from_str` of the displayed text gives back every format |
| Models.StateDebug | src/models.rs:116-132 | Debug prints the same text as Display |
| Models.StateDisplayInjective | src/models.rs:125-132 | the two states print differently |
| CloudWatch.ShowsTraffic | src/elb.rs:125-136 | a present result whose values, none when absent, sum to more than zero, the test of src/elbv2.rs:146-156 as well; `ShowsTrafficIffPositiveValue` characterises it |
| CloudWatch.PositiveSumIffPositiveValue | src/elb.rs:127-129 | a sum of non-negative counts is non-negative, and positive exactly when one count is positive |
| CloudWatch.ShowsTrafficIffPositiveValue | src/elb.rs:125-136 | with non-negative counts, a result shows traffic exactly when it is present, has a value list, and one of the values is positive |
| Paging.FirstStop | src/elb.rs:96-100 | the index of the first response that ends the loop: a failed call, or a page without a marker |
| Paging.ListAll | src/elb.rs:84-103 | the loop yields `Listing`: every page's items in order, up to the first page without a marker (a missing item list counts as empty), or a failure. The first request has no marker, each later one carries the previous page's marker, and there is one request per page |
| Paging.WellFormedListing | src/elb.rs:84-103 | when every call is answered and only the last page lacks a marker, the listing is the concatenation of all pages after as many requests as there are pages |
| Elb.GetElbLoadBalancers | src/elb.rs:84-103 | `get_elb_load_balancers` yields `Listing`, with the same marker protocol |
| Elb.DimensionValue | src/elb.rs:110 | the dimension value is the whole name when it has no `:`, and otherwise what follows a `:`; it contains no `:` |
| Elb.ElbMetric | src/elb.rs:110-121 | `HealthyHostCount` in `AWS/ELB` with the one `LoadBalancerName` dimension; `DimensionValue` states its value |
| Elb.GetElbLbState | src/elb.rs:105-137 | `get_elb_lb_state` is never None; it is Active exactly when the result shows traffic, and Inactive when the query returned nothing |
| Elb.ActiveIffPositiveCount | src/elb.rs:125-136 | with non-negative counts, Active exactly when the query returned a value list holding a positive count |
| Elb.ElbRecordsOnePerLoadBalancer | src/elb.rs:53-68 | one record per listed load balancer, carrying its name, its state and the region read from its DNS name |
| Elb.ProcessRegion | src/elb.rs:43-82 | succeeds exactly when the listing succeeds and every DNS name has a region; its records are, as a multiset, those of `ElbRecords`; it fails only on the listing or on a DNS name with too few labels |
| ElbV2.GetElbv2LoadBalancers | src/elbv2.rs:84-103 | `get_elbv2_load_balancers` yields `Listing`, with the same marker protocol |
| ElbV2.TargetGroupMetric | src/elbv2.rs:127-142 | `HealthyHostCount` in `AWS/ApplicationELB` with the `LoadBalancer` and `TargetGroup` dimensions; `QueriesStopAtFirstTraffic` states its fields |
| ElbV2.ScanFrom | src/elbv2.rs:123-157 | the target-group loop's outcome from group i on; `ScanFindsTraffic` and `ScanFailsOnMalformedArn` characterise it |
| ElbV2.QueriesFrom | src/elbv2.rs:123-157 | the metrics that loop queries from group i on; `QueriesAreLeadingGroups`, `QueriesEndAtFirstTraffic` and `QueriesAllWithoutTraffic` characterise them |
| ElbV2.ScanStep | src/elbv2.rs:144-156 | at a group with an id, the scan stops with Active when that group's query shows traffic, and otherwise queries it and goes on to the next group |
| ElbV2.Classification | src/elbv2.rs:159-163 | a classification that does not abort always gives a state, never None |
| ElbV2.GetElbv2LbState | src/elbv2.rs:105-164 | the loop with its `active` flag and `break` yields `Classification`, and queries exactly the metrics of `QueriedMetrics`, in order |
| ElbV2.ScanFindsTraffic | src/elbv2.rs:123-157 | with well-formed target-group ARNs, the scan never aborts, and finds traffic exactly when some group from the start index on shows traffic |
| ElbV2.ScanFailsOnMalformedArn | src/elbv2.rs:124-125 | a scan aborts only at a group whose ARN has too few fields, and names that ARN |
| ElbV2.QueriesAreLeadingGroups | src/elbv2.rs:123-144 | the queried metrics are those of the leading groups, in listing order, and there are no more of them than groups |
| ElbV2.QueriesEndAtFirstTraffic | src/elbv2.rs:150-153 | when group j is the first to show traffic, exactly the groups up to and including j are queried |
| ElbV2.QueriesAllWithoutTraffic | src/elbv2.rs:123-157 | when no group shows traffic, every group is queried |
| ElbV2.ActiveIffSomeTargetGroupShowsTraffic | src/elbv2.rs:121-163 | with well-formed ARNs, the classification does not abort; it is Active exactly when some target group shows traffic, and Inactive when there are no target groups |
| ElbV2.QueriesStopAtFirstTraffic | src/elbv2.rs:120-153 | each query uses namespace "AWS/ApplicationELB", metric "HealthyHostCount", and the two ids from the ARNs. The queried groups are the leading ones, up to and including the first that shows traffic, or all of them when none does |
| ElbV2.ClassificationFailures | src/elbv2.rs:111-125 | the classification aborts only when the target-group listing fails, when the load-balancer ARN has too few fields, or when a listed target-group ARN has too few fields |
| ElbV2.MissingStatsSkipped | src/elbv2.rs:146-156 | a group whose query returns nothing is queried and then passed over, as if it had not been there |
| ElbV2.ShortCircuitExample | src/elbv2.rs:150-153 | with three groups summing to 0, 5 and 9, only the first two are queried, and the scan finds traffic |
| ElbV2.ElbV2RecordsOnePerLoadBalancer | src/elbv2.rs:53-68 | one record per listed load balancer, carrying its ARN, its state and the region read from its ARN's fourth field |
| ElbV2.RecordsExtend | src/elbv2.rs:65-68 | classifying one more load balancer extends the records by its record |
| ElbV2.RunTasks | src/elbv2.rs:62-77 | the tasks, run in order, succeed exactly when every classification succeeds, and then yield `ElbV2Records`; otherwise they fail with the error of some classification |
| ElbV2.ProcessRegion | src/elbv2.rs:43-82 | succeeds exactly when the listing succeeds, every ARN has a region and every classification succeeds; its records are, as a multiset, those of `ElbV2Records`; every failure is traced to the listing, an ARN or a classification |

## Left out

- `src/cloudwatch.rs` (`get_metric_stats`) is an input of the model. Building the time window from the clock, the `Minimum` statistic, the 60-second period and the logging of errors are not modelled.
- The progress lines `Processing ELB: …` and `Processing ELBv2: …` that each task prints (src/elb.rs:63, src/elbv2.rs:63) are not modelled: they are console output only.
- The AWS SDK clients and `aws_config` are not modelled. The region and credentials that `process_region` configures its clients with are implicit in the responses it is given.
- `_delete_elb_lb` and `_delete_elbv2_lb` are left out. Each is one SDK call, and nothing calls either of them.
- `unwrap` on fields the SDK types leave optional are excluded by the model's types: a load balancer's name, DNS name or ARN, and a target group's ARN. The model's records always carry them.
- `Paging.ListAll`: a service that never sends a stopping response makes the program request pages forever. The model requires that some response ends the listing.
- Concurrency is not modelled: `Arc<Mutex<Vec>>`, the task futures and `join_all`. The tasks run in order, and the records are compared as a multiset.
- Metric values are real numbers. `f64` rounding in the summation is not modelled, and `NonNegative` states the assumption that healthy-host counts are never negative.
- `Models.ToLower`: lower-cases ASCII letters only. Rust's `to_lowercase` also folds other letters, and that folding is not modelled.
- `AppConfig::new` is not modelled: it reads and parses a TOML file, and panics on error. The `debug_struct` output of the config and record types is not modelled either.
- The `_delete_inactive` parameter of both `process_region`s is unused, and the model has no such parameter.
- `ElbData::new` and `ElbV2Data::new` are the datatype constructors `Elb.ElbData` and `ElbV2.ElbV2Data`.
- Models.DeserializeIsExact: a value that is not a string is one `OtherValue`, and the deserializer's own error for it is `()`; which kinds of value a given format hands over, and the text of its error, are not modelled.
- `src/main.rs` is not part of this model.
