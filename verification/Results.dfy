// The labels that queries and forwarded answers are counted under.
module Results {
  // The `result` of a query, plus the label of queries dropped as foreign.
  datatype Result =
    | Nodata | Override | Deny | Blocklist | Local | ForwardCache | Forward | Servfail | Foreign

  // The cache outcome of a forwarded query: stored, or why not.
  datatype Outcome = Cached | Nxdomain | Error | EmptyAnswer | ZeroTtl | UpstreamFailure
}
