/** The graph projection: query-result rows, one per movie with the names of
    its actors, shaped into a node list and a link list for a force-directed
    drawing. Movie nodes are appended one per row; actor nodes are shared, an
    actor's name being looked up among the actor nodes built so far. */
module Graph {
  import opened Values

  /** The two node labels, rendered as "movie" and "actor". */
  datatype Label = Movie | Actor

  datatype Node = Node(title: string, kind: Label)

  /** `source` and `target` are positions in the node list. */
  datatype Link = Link(source: nat, target: nat)

  datatype D3Response = D3Response(nodes: seq<Node>, links: seq<Link>)

  /** One row of the graph query: a movie title and its actors' names. */
  datatype GraphRow = GraphRow(movie: string, cast: seq<string>)

  const EmptyResponse := D3Response([], [])

  // ---------------------------------------------------------------------
  // Decoding the rows
  // ---------------------------------------------------------------------

  /** The graph handler can shape `rec` without panicking: its cast list, if any,
      holds only strings (each actor is asserted to be a string). */
  predicate GraphRecord(rec: Record) {
    StringListColumn(rec, "cast")
  }

  /** The movie title (or "") and the actor names (or none) of one row. */
  function DecodeRow(rec: Record): (row: GraphRow)
    requires GraphRecord(rec)
    ensures row.movie == GetString(rec, "movie")
    ensures |row.cast| == |GetList(rec, "cast")|
    ensures forall j :: 0 <= j < |row.cast| ==> GetList(rec, "cast")[j] == Str(row.cast[j])
  {
    GraphRow(GetString(rec, "movie"), ToStringSlice(GetList(rec, "cast")))
  }

  function DecodeRows(records: seq<Record>): (rows: seq<GraphRow>)
    requires forall i :: 0 <= i < |records| ==> GraphRecord(records[i])
    ensures |rows| == |records|
    ensures forall i :: 0 <= i < |records| ==> rows[i] == DecodeRow(records[i])
  {
    if |records| == 0 then []
    else DecodeRows(records[..|records| - 1]) + [DecodeRow(records[|records| - 1])]
  }

  /** The result row the graph query returns for `row`: the title and the
      list of actor names. */
  function RecordOf(row: GraphRow): (rec: Record)
    ensures GraphRecord(rec)
  {
    map["movie" := Str(row.movie), "cast" := List(StrValues(row.cast))]
  }

  /** Decoding the result row of a graph row gives that row back. */
  lemma DecodeRowRoundTrip(row: GraphRow)
    ensures DecodeRow(RecordOf(row)) == row
  {
    ToStringSliceRoundTrip(row.cast);
  }

  /** Decoding the result rows of some graph rows gives those rows back, in
      order. */
  lemma DecodeRowsRoundTrip(rows: seq<GraphRow>)
    ensures DecodeRows(seq(|rows|, i requires 0 <= i < |rows| => RecordOf(rows[i]))) == rows
  {
    var records := seq(|rows|, i requires 0 <= i < |rows| => RecordOf(rows[i]));
    var decoded := DecodeRows(records);
    forall i | 0 <= i < |rows|
      ensures decoded[i] == rows[i]
    {
      DecodeRowRoundTrip(rows[i]);
    }
  }

  // ---------------------------------------------------------------------
  // Building the response
  // ---------------------------------------------------------------------

  /** The position of the first node that is an actor named `name`, or -1.
      Movie nodes never match, whatever their title. */
  function FindActor(nodes: seq<Node>, name: string): (idx: int)
    ensures -1 <= idx < |nodes|
    ensures idx == -1 <==> Node(name, Actor) !in nodes
    ensures 0 <= idx ==> nodes[idx] == Node(name, Actor) && Node(name, Actor) !in nodes[..idx]
  {
    if |nodes| == 0 then -1
    else if name == nodes[0].title && nodes[0].kind == Actor then 0
    else
      var k := FindActor(nodes[1..], name);
      assert k != -1 ==> nodes[..k + 1] == [nodes[0]] + nodes[1..][..k];
      if k == -1 then -1 else k + 1
  }

  /** Link `k` of `g` goes from an actor node named `name` to the node at
      `movIdx`. */
  predicate LinkedTo(g: D3Response, k: int, name: string, movIdx: nat) {
    && 0 <= k < |g.links|
    && g.links[k].target == movIdx
    && g.links[k].source < |g.nodes|
    && g.nodes[g.links[k].source] == Node(name, Actor)
  }

  /** One actor of the row whose movie node is at `movIdx`: reuse the first
      actor node of that name, or append a new one, and link it to the
      movie. */
  function AddActor(g: D3Response, movIdx: nat, actor: string): D3Response {
    var idx := FindActor(g.nodes, actor);
    if idx == -1 then
      D3Response(g.nodes + [Node(actor, Actor)], g.links + [Link(|g.nodes|, movIdx)])
    else
      D3Response(g.nodes, g.links + [Link(idx, movIdx)])
  }

  /** An actor's node is appended only when no actor node of that name
      exists; otherwise the nodes are unchanged. Exactly one link is
      appended, from the first actor node of that name to the movie. */
  lemma AddActorShape(g: D3Response, movIdx: nat, actor: string)
    ensures var g' := AddActor(g, movIdx, actor);
            && (Node(actor, Actor) in g.nodes ==> g'.nodes == g.nodes)
            && (Node(actor, Actor) !in g.nodes ==> g'.nodes == g.nodes + [Node(actor, Actor)])
            && |g'.links| == |g.links| + 1 && g.links <= g'.links
            && LinkedTo(g', |g.links|, actor, movIdx)
            && Node(actor, Actor) !in g'.nodes[..g'.links[|g.links|].source]
  {
  }

  /** All actors of the row whose movie node is at `movIdx`, in order. */
  function AddActors(g: D3Response, movIdx: nat, actors: seq<string>): D3Response {
    if |actors| == 0 then g
    else AddActor(AddActors(g, movIdx, actors[..|actors| - 1]), movIdx, actors[|actors| - 1])
  }

  /** Adding a row's actors only appends: to the nodes, and one link per
      actor entry. */
  lemma {:induction false} AddActorsGrows(g: D3Response, movIdx: nat, actors: seq<string>)
    ensures g.nodes <= AddActors(g, movIdx, actors).nodes
    ensures g.links <= AddActors(g, movIdx, actors).links
    ensures |AddActors(g, movIdx, actors).links| == |g.links| + |actors|
    decreases |actors|
  {
    if |actors| > 0 {
      var p := actors[..|actors| - 1];
      AddActorsGrows(g, movIdx, p);
      var prev := AddActors(g, movIdx, p);
      var next := AddActors(g, movIdx, actors);
      assert next == AddActor(prev, movIdx, actors[|actors| - 1]);
      AddActorShape(prev, movIdx, actors[|actors| - 1]);
      assert prev.nodes <= next.nodes;
    }
  }

  /** Every node appended while adding a row's actors is an actor node. */
  lemma {:induction false} AddActorsAppendsActors(g: D3Response, movIdx: nat, actors: seq<string>)
    ensures var n' := AddActors(g, movIdx, actors).nodes;
            forall i :: |g.nodes| <= i < |n'| ==> n'[i].kind == Actor
    decreases |actors|
  {
    if |actors| > 0 {
      var p := actors[..|actors| - 1];
      AddActorsAppendsActors(g, movIdx, p);
      AddActorsGrows(g, movIdx, p);
      var prev := AddActors(g, movIdx, p);
      var next := AddActors(g, movIdx, actors);
      assert next == AddActor(prev, movIdx, actors[|actors| - 1]);
      AddActorShape(prev, movIdx, actors[|actors| - 1]);
      assert forall i :: |g.nodes| <= i < |prev.nodes| ==> next.nodes[i] == prev.nodes[i];
    }
  }

  /** Adding a row's actors appends, for the `j`-th actor entry, a link from
      that actor's node to the movie node. */
  lemma {:induction false} AddActorsLinks(g: D3Response, movIdx: nat, actors: seq<string>)
    ensures forall j :: 0 <= j < |actors| ==>
              LinkedTo(AddActors(g, movIdx, actors), |g.links| + j, actors[j], movIdx)
    decreases |actors|
  {
    if |actors| > 0 {
      var p := actors[..|actors| - 1];
      AddActorsLinks(g, movIdx, p);
      AddActorsGrows(g, movIdx, p);
      var prev := AddActors(g, movIdx, p);
      var next := AddActors(g, movIdx, actors);
      assert next == AddActor(prev, movIdx, actors[|actors| - 1]);
      AddActorShape(prev, movIdx, actors[|actors| - 1]);
      forall j | 0 <= j < |actors|
        ensures LinkedTo(next, |g.links| + j, actors[j], movIdx)
      {
        if j < |p| {
          assert p[j] == actors[j];
          LinkedToGrowsAt(prev, next, |g.links| + j, actors[j], movIdx);
        }
      }
    }
  }

  /** A link survives growing both lists by appending. */
  lemma LinkedToGrowsAt(g: D3Response, h: D3Response, k: int, name: string, movIdx: nat)
    requires g.nodes <= h.nodes && g.links <= h.links
    requires LinkedTo(g, k, name, movIdx)
    ensures LinkedTo(h, k, name, movIdx)
  {
    assert h.links[k] == g.links[k];
    assert h.nodes[g.links[k].source] == g.nodes[g.links[k].source];
  }

  /** One row: its movie node is appended (never shared with an earlier
      movie of the same title), then its actors are added and linked to it. */
  function AddRow(g: D3Response, row: GraphRow): D3Response {
    AddActors(D3Response(g.nodes + [Node(row.movie, Movie)], g.links), |g.nodes|, row.cast)
  }

  /** A row only appends: its movie node right after the existing nodes,
      then more nodes, and one link per actor entry. */
  lemma AddRowGrows(g: D3Response, row: GraphRow)
    ensures g.nodes + [Node(row.movie, Movie)] <= AddRow(g, row).nodes
    ensures g.links <= AddRow(g, row).links
    ensures |AddRow(g, row).links| == |g.links| + |row.cast|
  {
    AddActorsGrows(D3Response(g.nodes + [Node(row.movie, Movie)], g.links), |g.nodes|, row.cast);
  }

  /** The nodes a row appends after its movie node are actor nodes. */
  lemma AddRowAppendsActors(g: D3Response, row: GraphRow)
    ensures var n' := AddRow(g, row).nodes;
            forall i :: |g.nodes| < i < |n'| ==> n'[i].kind == Actor
  {
    var start := D3Response(g.nodes + [Node(row.movie, Movie)], g.links);
    assert |start.nodes| == |g.nodes| + 1;
    assert AddRow(g, row) == AddActors(start, |g.nodes|, row.cast);
    AddActorsAppendsActors(start, |g.nodes|, row.cast);
  }

  /** The link a row appends for its `j`-th actor entry goes from that
      actor's node to the row's movie node. */
  lemma AddRowLink(g: D3Response, row: GraphRow, j: nat)
    requires j < |row.cast|
    ensures LinkedTo(AddRow(g, row), |g.links| + j, row.cast[j], |g.nodes|)
  {
    AddActorsLinks(D3Response(g.nodes + [Node(row.movie, Movie)], g.links), |g.nodes|, row.cast);
  }

  /** The graph response for the rows, in row order. */
  function BuildGraph(rows: seq<GraphRow>): D3Response {
    if |rows| == 0 then EmptyResponse
    else AddRow(BuildGraph(rows[..|rows| - 1]), rows[|rows| - 1])
  }

  /** The graph response for the query's result rows. */
  function GraphOf(records: seq<Record>): D3Response
    requires forall i :: 0 <= i < |records| ==> GraphRecord(records[i])
  {
    BuildGraph(DecodeRows(records))
  }

  /** The scan of the handler's innermost loop: the nodes are walked in
      order and the walk stops at the first actor node named `actor`. */
  method ScanForActor(nodes: seq<Node>, actor: string) returns (idx: int)
    ensures idx == FindActor(nodes, actor)
  {
    idx := -1;
    var i := 0;
    while i < |nodes|
      invariant 0 <= i <= |nodes|
      invariant idx == -1
      invariant forall j :: 0 <= j < i ==> nodes[j] != Node(actor, Actor)
    {
      if actor == nodes[i].title && nodes[i].kind == Actor {
        idx := i;
        break;
      }
      i := i + 1;
    }
    FindActorUnique(nodes, actor, idx);
  }

  /** The body of the handler's actor loop: scan for the actor's node,
      append one if there is none, and append the link. */
  method AddActorStep(nodes0: seq<Node>, links0: seq<Link>, movIdx: nat, actor: string)
    returns (nodes: seq<Node>, links: seq<Link>)
    ensures D3Response(nodes, links) == AddActor(D3Response(nodes0, links0), movIdx, actor)
  {
    nodes, links := nodes0, links0;
    var idx := ScanForActor(nodes, actor);
    AddActorUnfold(D3Response(nodes, links), movIdx, actor);
    if idx == -1 {
      nodes := nodes + [Node(actor, Actor)];
      links := links + [Link(|nodes| - 1, movIdx)];
    } else {
      links := links + [Link(idx, movIdx)];
    }
  }

  /** The body of the handler's row loop: append the movie node, then for
      each actor scan for its node, append one if needed, and append the
      link. */
  method AddRowLoop(nodes0: seq<Node>, links0: seq<Link>, row: GraphRow)
    returns (nodes: seq<Node>, links: seq<Link>)
    ensures D3Response(nodes, links) == AddRow(D3Response(nodes0, links0), row)
  {
    nodes, links := nodes0, links0;
    nodes := nodes + [Node(row.movie, Movie)];
    var start := D3Response(nodes, links);
    var movIdx := |nodes| - 1;
    var a := 0;
    while a < |row.cast|
      invariant 0 <= a <= |row.cast|
      invariant D3Response(nodes, links) == AddActors(start, movIdx, row.cast[..a])
    {
      var actor := row.cast[a];
      AddActorsSnoc(start, movIdx, row.cast, a);
      nodes, links := AddActorStep(nodes, links, movIdx, actor);
      a := a + 1;
    }
    assert row.cast[..a] == row.cast;
  }

  /** `AddActor` spelled out in terms of the scan result. */
  lemma AddActorUnfold(g: D3Response, movIdx: nat, actor: string)
    ensures var idx := FindActor(g.nodes, actor);
            AddActor(g, movIdx, actor)
            == if idx == -1 then D3Response(g.nodes + [Node(actor, Actor)], g.links + [Link(|g.nodes|, movIdx)])
               else D3Response(g.nodes, g.links + [Link(idx, movIdx)])
  {
  }

  /** Adding the actors of a longer prefix adds one more actor. */
  lemma AddActorsSnoc(g: D3Response, movIdx: nat, actors: seq<string>, a: nat)
    requires a < |actors|
    ensures AddActors(g, movIdx, actors[..a + 1])
            == AddActor(AddActors(g, movIdx, actors[..a]), movIdx, actors[a])
  {
    assert actors[..a + 1][..a] == actors[..a];
  }

  /** The builder as the handler writes it: a loop over the rows growing two
      lists. It computes exactly `BuildGraph`. */
  method BuildGraphLoop(rows: seq<GraphRow>) returns (g: D3Response)
    ensures g == BuildGraph(rows)
  {
    var nodes: seq<Node> := [];
    var links: seq<Link> := [];
    var r := 0;
    while r < |rows|
      invariant 0 <= r <= |rows|
      invariant D3Response(nodes, links) == BuildGraph(rows[..r])
    {
      nodes, links := AddRowLoop(nodes, links, rows[r]);
      assert rows[..r + 1][..r] == rows[..r];
      r := r + 1;
    }
    assert rows[..r] == rows;
    g := D3Response(nodes, links);
  }

  /** A scan result with the properties of the first match (or of no match)
      is the one `FindActor` returns. */
  lemma FindActorUnique(nodes: seq<Node>, name: string, idx: int)
    requires -1 <= idx < |nodes|
    requires idx == -1 ==> Node(name, Actor) !in nodes
    requires 0 <= idx ==> nodes[idx] == Node(name, Actor)
    requires 0 <= idx ==> forall j :: 0 <= j < idx ==> nodes[j] != Node(name, Actor)
    ensures idx == FindActor(nodes, name)
  {
  }
}
