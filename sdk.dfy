/** What the scan receives from the load-balancing services, as plain values:
    the outcome of one call, one page of a paginated listing, and the reasons
    a region's scan aborts. */
module Sdk {
  import opened Wrappers

  /** The outcome of one service call: its response, or an error the program
      does not handle (it unwraps the result and panics). */
  datatype Call<T> = Answered(response: T) | Failed

  /** The continuation token of a paginated listing call. */
  type Marker = Option<string>

  /** One response of `describe_load_balancers`: the listed items, if any,
      and the marker of the next page, if there is one. */
  datatype Page<T> = Page(items: Option<seq<T>>, nextMarker: Marker)

  /** Why a region's scan aborts. Each is an `unwrap` that panics in the
      program: a failed listing call, an ARN with too few fields, a DNS name
      with too few labels. */
  datatype Failure =
    | ListingFailed
    | TargetGroupListingFailed(loadBalancerArn: string)
    | MalformedArn(arn: string)
    | MalformedDnsName(dnsName: string)
}
