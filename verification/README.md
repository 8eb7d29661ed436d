# Movies example server: result shaping, in Dafny

The movies example server answers three read endpoints of a movie database
(search, movie detail, and the actor/movie graph). It sends each request to
the graph database as a query and turns the result rows into JSON response
values. This project models that row-to-response shaping, and the parsing of
the graph endpoint's `limit` parameter, and proves properties of them.

- `values.dfy` (module `Values`) covers the driver's rows and column values.
  A row is a map from column name to a dynamically typed value. A typed read
  gives the zero value when the column is missing, is null, or holds another
  type. `ToStringSlice` turns a list of strings into a string sequence.
- `movies.dfy` (module `Movies`) holds the search projection (one summary per
  row) and the detail projection (a fold over the rows: every row overwrites
  the title and appends one cast member).
- `graph.dfy` (module `Graph`) holds the graph projection. `BuildGraph` is a
  functional reference definition. `BuildGraphLoop`, `AddRowLoop`,
  `AddActorStep` and `ScanForActor` are the handler's nested loops, proved to
  compute exactly that definition.
- `graph_facts.dfy` (module `GraphFacts`) holds the structural facts about the
  graph:
  - one movie node per row;
  - one link per actor entry, each pointing from an actor node to its row's
    movie node;
  - no two actor nodes with the same name, and every actor name has a node;
  - node count = rows + distinct actor names;
  - the result for a prefix of the rows is a prefix of the result.
- `limit.dfy` (module `Limit`) holds `parseLimit`: the first `limit` value if
  it parses, else 50.

The search handler reads tagline and votes as a plain string and a plain
`int64` (server.go:101-102). A missing or null column therefore becomes `""`
or `0`, and so does a column holding a value of another type. The model does
the same (`Movies.SearchDefaults`). The JSON `omitempty` tags then hide those
zero values, which is outside the model.

## Model

| member | source | states |
|---|---|---|
| Values.ToStringSlice | server.go:228-234 | the result has one string per list element, in order, and each is that element's string; the caller must supply only strings (the type assertion at server.go:231 panics otherwise) |
| Values.ToStringSliceRoundTrip | server.go:228-234 | converting the driver's rendering of a list of strings gives back the same list |
| Movies.Search | server.go:97-104 | one result per row, in row order; result `i` wraps the summary read from row `i` (released, title, tagline, votes, no cast) |
| Movies.SummaryRoundTrip | server.go:99-103 | the summary read from the row the search query returns for a movie is that movie again, including the null tagline and votes columns of a movie without them |
| Movies.SearchRoundTrip | server.go:97-104 | searching over the rows of a list of movies returns exactly those movies, in order |
| Movies.SearchDefaults | server.go:99-102 | a row with no string and no integer column (every column missing, null, a list or another kind) reads as the zero movie |
| Movies.SearchAppend | server.go:97-104 | the search response is a per-row map: the response for two batches concatenated is the two responses concatenated |
| Movies.SearchExample | server.go:97-104 | The Matrix's search row yields the summary 1999 / "The Matrix" / "Welcome to the Real World" / 5 votes |
| Movies.PersonOf | server.go:137-145 | a cast member takes the row's name and job; the roles come only from a list (elementwise the same strings), and any other role value gives no roles |
| Movies.Detail | server.go:133-146 | one cast entry per row, in order, even for rows with null person data; the title is the last row's (empty if there are no rows); release year, tagline and votes stay zero |
| Movies.DetailAppendCast | server.go:134-146 | folding two batches of rows concatenates their casts |
| Movies.DetailAppendTitle | server.go:134-136 | folding two batches of rows keeps the later batch's title, unless that batch is empty |
| Movies.NoCastSentinel | server.go:133-146 | the single null-person row returned for a movie without cast yields exactly one empty cast entry, while no rows yield the zero movie, so the two cases stay distinct |
| Graph.DecodeRow | server.go:197-198 | a graph row's movie title is the `movie` column (or ""), and its actors are the `cast` list's strings, in order (none if there is no list) |
| Graph.DecodeRows | server.go:196-198 | one decoded row per result row, in order |
| Graph.DecodeRowRoundTrip | server.go:197-198 | decoding the result row the graph query returns for a movie and its actors gives that movie and those actors back, in order |
| Graph.DecodeRowsRoundTrip | server.go:196-198 | decoding the result rows for a list of graph rows gives back exactly that list |
| Graph.FindActor | server.go:202-208 | the scan returns -1 exactly when no actor node has the name; otherwise it returns the first actor node with that name, and movie nodes never match |
| Graph.ScanForActor | server.go:202-208 | the scan loop with early exit returns the same position as `FindActor` |
| Graph.AddActorShape | server.go:202-214 | one actor entry appends a node exactly when no actor node of that name exists, and otherwise leaves the nodes alone; it appends exactly one link, from the first actor node of that name to the movie |
| Graph.AddActorsGrows | server.go:201-215 | a row's actor loop only appends, adding exactly one link per actor entry |
| Graph.AddActorsAppendsActors | server.go:209-211 | every node the actor loop appends is an actor node |
| Graph.AddActorsLinks | server.go:201-215 | the `j`-th link the actor loop appends goes from the node of the `j`-th actor to the movie node |
| Graph.AddRowGrows | server.go:199-215 | a row appends its movie node right after the existing nodes and one link per actor entry, and keeps everything before |
| Graph.AddRowAppendsActors | server.go:199-211 | after its movie node, a row appends only actor nodes |
| Graph.AddRowLink | server.go:199-215 | a row's `j`-th new link connects its `j`-th actor's node to the row's movie node |
| Graph.AddActorStep | server.go:202-214 | the body of the actor loop computes `AddActor` |
| Graph.AddRowLoop | server.go:197-215 | the body of the row loop, with its inner loop over the actors, computes `AddRow` |
| Graph.BuildGraphLoop | server.go:195-216 | the handler's loop over all rows computes `BuildGraph` |
| GraphFacts.BuildGraphSnoc | server.go:195-216 | adding a row to the end extends the response by exactly that row's contribution |
| GraphFacts.MovieNodeCount | server.go:196-200 | the response has exactly one movie node per row, even when titles repeat |
| GraphFacts.LinkCount | server.go:201-215 | the response has exactly one link per actor entry over all rows |
| GraphFacts.BuildGraphWellTyped | server.go:199-214 | every link's source is an actor node and its target is a movie node, both in range |
| GraphFacts.BuildGraphActorsDistinct | server.go:202-213 | no two actor nodes have the same name |
| GraphFacts.BuildGraphActorTitles | server.go:202-213 | the actor nodes' names are exactly the actor names in the rows |
| GraphFacts.ActorNodeCount | server.go:202-213 | there is one actor node per distinct actor name |
| GraphFacts.NodeCount | server.go:195-216 | the node count is the row count plus the number of distinct actor names |
| GraphFacts.AppendOnly | server.go:195-216 | the response for any prefix of the rows is a prefix of the full response, in both nodes and links |
| GraphFacts.RowContribution | server.go:199-215 | row `r`'s movie node sits right after the earlier rows' nodes, and its links follow the earlier links, one per actor entry in order, each to that movie node |
| GraphFacts.MovieNodeOfRow | server.go:199 | every row's movie has a movie node |
| GraphFacts.ActorNodeOfEntry | server.go:202-213 | every actor entry of every row has an actor node |
| GraphFacts.SharedNameKeepsBothNodes | server.go:203-210 | a name that is both a movie title and an actor name gets both a movie node and an actor node |
| GraphFacts.GraphOfRecords | server.go:195-216 | over the query's result rows: one movie node per row, one link per actor entry, distinct actor nodes, well-typed links |
| GraphFacts.SharedActorExample | server.go:195-216 | Top Gun and Days of Thunder sharing Tom Cruise yield three nodes and two links, both from the one actor node |
| Limit.ParseLimit | server.go:260-270 | the limit is the first `limit` value when it converts; otherwise it is 50; any other result comes from a converted first value |
| Limit.NoLimitIsDefault | server.go:261-263 | no `limit` parameter (or no values for it) gives 50 |
| Limit.UnparsableLimitIsIgnored | server.go:263-267 | a first value that does not convert behaves exactly like no `limit` at all, giving 50 |
| Limit.OnlyFirstLimitCounts | server.go:261-265 | values after the first `limit` value are never read |
| Limit.OtherParametersIgnored | server.go:260-270 | parameters other than `limit` do not affect the result |

## Left out

- The HTTP layer is left out: the handlers, routing, the static index page, the content-type header and JSON encoding. The model ends at the response value. The `omitempty` tags that hide zero fields belong to the encoding.
- The queries themselves are left out, as is the driver connection. The Cypher text, its parameters and routing all run in the database. The model starts from the result rows the driver returns.
- The vote endpoint is left out. It only copies the write summary's counter into `VoteResult` and does no shaping worth modelling.
- Configuration is left out: reading the environment, the version-dependent database name, `newDriver`, `unsafeClose` and `main`. It is process setup, not result shaping.
- Error plumbing and logging are left out. The detail and graph handlers read the result's rows before checking the query error, so a failed query dereferences a nil result. The model takes the rows as given.
- Values.ToStringSlice: a list element that is not a string makes `toStringSlice` (and the graph handler's `actor.(string)`) panic. The model excludes this with a precondition rather than modelling the panic. The same holds for `Movies.PersonOf` and for the graph's actor names (`Graph.GraphRecord`).
- Limit.ParseLimit: the decimal conversion (`strconv.Atoi`, including its range check) is a parameter. The model states only how its result is used. Negative or zero limits are passed on unchanged, as in the source.
- Role slices are plain sequences. An empty role is always nil in the code, because `toStringSlice` starts from a nil slice and returns it unchanged for an empty list (server.go:229), and the default branch leaves `Role` nil (server.go:144). So `[]` loses nothing.
- Integer width: `Values.int64` bounds the driver's integers, but no arithmetic is done on them, so no wrap-around arises.
