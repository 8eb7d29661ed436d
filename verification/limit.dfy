/** The row limit of the graph endpoint, read from the request's query
    parameters. The decimal conversion (`strconv.Atoi`) is a parameter: it
    yields `None` for text that is not a decimal integer in range. */
module Limit {
  import opened Values

  /** The limit used when none is given or the given one does not parse. */
  const DefaultLimit := 50

  /** A request's query parameters: each name with all its values, in order. */
  type Query = map<string, seq<string>>

  /** `parseLimit`: the first `limit` value, converted, or the default. */
  function ParseLimit(query: Query, atoi: string -> Option<int>): (limit: int)
    ensures limit != DefaultLimit ==>
              "limit" in query && |query["limit"]| > 0 && atoi(query["limit"][0]) == Some(limit)
    ensures "limit" in query && |query["limit"]| > 0 && atoi(query["limit"][0]).Some? ==>
              limit == atoi(query["limit"][0]).value
  {
    var limits := if "limit" in query then query["limit"] else [];
    if |limits| > 0 then
      match atoi(limits[0])
      case Some(n) => n
      case None => DefaultLimit
    else DefaultLimit
  }

  /** Without a `limit` parameter the default applies. */
  lemma NoLimitIsDefault(query: Query, atoi: string -> Option<int>)
    requires "limit" !in query || query["limit"] == []
    ensures ParseLimit(query, atoi) == DefaultLimit
  {
  }

  /** A `limit` whose first value does not parse behaves exactly as no
      `limit` at all. */
  lemma UnparsableLimitIsIgnored(query: Query, atoi: string -> Option<int>, v: string, rest: seq<string>)
    requires atoi(v) == None
    ensures ParseLimit(query["limit" := [v] + rest], atoi) == ParseLimit(query - {"limit"}, atoi)
    ensures ParseLimit(query["limit" := [v] + rest], atoi) == DefaultLimit
  {
  }

  /** Only the first `limit` value counts; later ones are never read. */
  lemma OnlyFirstLimitCounts(query: Query, atoi: string -> Option<int>, v: string, rest: seq<string>)
    ensures ParseLimit(query["limit" := [v] + rest], atoi) == ParseLimit(query["limit" := [v]], atoi)
  {
  }

  /** Every other parameter is irrelevant. */
  lemma OtherParametersIgnored(query: Query, atoi: string -> Option<int>, name: string, vs: seq<string>)
    requires name != "limit"
    ensures ParseLimit(query[name := vs], atoi) == ParseLimit(query, atoi)
  {
  }
}
