/** Properties of the graph projection over any sequence of rows: how many
    nodes of each label it builds, that actor nodes are never duplicated,
    where every link points, and that building only ever appends. */
module GraphFacts {
  import opened Graph
  import Values

  // ---------------------------------------------------------------------
  // Measures of a response and of the rows
  // ---------------------------------------------------------------------

  /** The number of nodes labelled `l`. */
  function CountLabel(nodes: seq<Node>, l: Label): nat {
    if |nodes| == 0 then 0
    else CountLabel(nodes[..|nodes| - 1], l) + (if nodes[|nodes| - 1].kind == l then 1 else 0)
  }

  /** The titles of the actor nodes. */
  function ActorTitles(nodes: seq<Node>): set<string> {
    if |nodes| == 0 then {}
    else ActorTitles(nodes[..|nodes| - 1])
         + (if nodes[|nodes| - 1].kind == Actor then {nodes[|nodes| - 1].title} else {})
  }

  /** The distinct names in a list of names. */
  function NameSet(names: seq<string>): set<string> {
    if |names| == 0 then {}
    else NameSet(names[..|names| - 1]) + {names[|names| - 1]}
  }

  /** The distinct actor names across all rows. */
  function ActorNames(rows: seq<GraphRow>): set<string> {
    if |rows| == 0 then {}
    else ActorNames(rows[..|rows| - 1]) + NameSet(rows[|rows| - 1].cast)
  }

  /** The total length of all rows' actor lists. */
  function CastTotal(rows: seq<GraphRow>): nat {
    if |rows| == 0 then 0
    else CastTotal(rows[..|rows| - 1]) + |rows[|rows| - 1].cast|
  }

  /** No two actor nodes are equal, that is, share a title. */
  predicate ActorsDistinct(nodes: seq<Node>) {
    forall i, j :: 0 <= i < j < |nodes| && nodes[i].kind == Actor ==> nodes[i] != nodes[j]
  }

  /** Every link goes from an actor node to a movie node, both in range. */
  predicate LinksWellTyped(g: D3Response) {
    forall k :: 0 <= k < |g.links| ==>
      && g.links[k].source < |g.nodes|
      && g.links[k].target < |g.nodes|
      && g.nodes[g.links[k].source].kind == Actor
      && g.nodes[g.links[k].target].kind == Movie
  }

  // ---------------------------------------------------------------------
  // Facts about the measures
  // ---------------------------------------------------------------------

  lemma {:induction false} CountLabelAppend(a: seq<Node>, b: seq<Node>, l: Label)
    ensures CountLabel(a + b, l) == CountLabel(a, l) + CountLabel(b, l)
    decreases |b|
  {
    if |b| > 0 {
      var b' := b[..|b| - 1];
      assert (a + b)[..|a + b| - 1] == a + b';
      CountLabelAppend(a, b', l);
    } else {
      assert a + b == a;
    }
  }

  lemma {:induction false} CountLabelAbsent(nodes: seq<Node>, l: Label)
    requires forall i :: 0 <= i < |nodes| ==> nodes[i].kind != l
    ensures CountLabel(nodes, l) == 0
    decreases |nodes|
  {
    if |nodes| > 0 {
      CountLabelAbsent(nodes[..|nodes| - 1], l);
    }
  }

  lemma {:induction false} ActorTitlesAppend(a: seq<Node>, b: seq<Node>)
    ensures ActorTitles(a + b) == ActorTitles(a) + ActorTitles(b)
    decreases |b|
  {
    if |b| > 0 {
      var b' := b[..|b| - 1];
      assert (a + b)[..|a + b| - 1] == a + b';
      ActorTitlesAppend(a, b');
    } else {
      assert a + b == a;
    }
  }

  /** A title is an actor title exactly when an actor node carries it. */
  lemma {:induction false} ActorTitlesMembership(nodes: seq<Node>, t: string)
    ensures t in ActorTitles(nodes) <==> Node(t, Actor) in nodes
    decreases |nodes|
  {
    if |nodes| > 0 {
      var p := nodes[..|nodes| - 1];
      ActorTitlesMembership(p, t);
      assert nodes == p + [nodes[|nodes| - 1]];
    }
  }

  /** Every node is a movie node or an actor node. */
  lemma {:induction false} CountLabelTotal(nodes: seq<Node>)
    ensures CountLabel(nodes, Movie) + CountLabel(nodes, Actor) == |nodes|
    decreases |nodes|
  {
    if |nodes| > 0 {
      CountLabelTotal(nodes[..|nodes| - 1]);
    }
  }

  /** With no duplicate actor nodes, counting actor nodes counts their
      titles. */
  lemma {:induction false} DistinctActorCount(nodes: seq<Node>)
    requires ActorsDistinct(nodes)
    ensures CountLabel(nodes, Actor) == |ActorTitles(nodes)|
    decreases |nodes|
  {
    if |nodes| > 0 {
      var p, last := nodes[..|nodes| - 1], nodes[|nodes| - 1];
      assert ActorsDistinct(p);
      DistinctActorCount(p);
      if last.kind == Actor {
        ActorTitlesMembership(p, last.title);
      }
    }
  }

  // ---------------------------------------------------------------------
  // One step of the build
  // ---------------------------------------------------------------------

  /** Adding a row to the end of the result extends the response built so
      far by exactly that row. */
  lemma BuildGraphSnoc(rows: seq<GraphRow>, row: GraphRow)
    ensures BuildGraph(rows + [row]) == AddRow(BuildGraph(rows), row)
  {
    assert (rows + [row])[..|rows|] == rows;
  }

  lemma AddActorKeepsDistinct(g: D3Response, movIdx: nat, actor: string)
    requires ActorsDistinct(g.nodes)
    ensures ActorsDistinct(AddActor(g, movIdx, actor).nodes)
  {
    var n' := AddActor(g, movIdx, actor).nodes;
    AddActorShape(g, movIdx, actor);
    if Node(actor, Actor) !in g.nodes {
      forall i, j | 0 <= i < j < |n'| && n'[i].kind == Actor
        ensures n'[i] != n'[j]
      {
        if j == |g.nodes| {
          assert n'[i] == g.nodes[i];
        }
      }
    }
  }

  lemma {:induction false} AddActorsKeepsDistinct(g: D3Response, movIdx: nat, actors: seq<string>)
    requires ActorsDistinct(g.nodes)
    ensures ActorsDistinct(AddActors(g, movIdx, actors).nodes)
    decreases |actors|
  {
    if |actors| > 0 {
      var prev := AddActors(g, movIdx, actors[..|actors| - 1]);
      AddActorsKeepsDistinct(g, movIdx, actors[..|actors| - 1]);
      AddActorKeepsDistinct(prev, movIdx, actors[|actors| - 1]);
    }
  }

  lemma AddRowKeepsDistinct(g: D3Response, row: GraphRow)
    requires ActorsDistinct(g.nodes)
    ensures ActorsDistinct(AddRow(g, row).nodes)
  {
    var start := D3Response(g.nodes + [Node(row.movie, Movie)], g.links);
    assert ActorsDistinct(start.nodes);
    AddActorsKeepsDistinct(start, |g.nodes|, row.cast);
  }

  lemma AddActorTitles(g: D3Response, movIdx: nat, actor: string)
    ensures ActorTitles(AddActor(g, movIdx, actor).nodes) == ActorTitles(g.nodes) + {actor}
  {
    ActorTitlesMembership(g.nodes, actor);
    AddActorShape(g, movIdx, actor);
    if Node(actor, Actor) !in g.nodes {
      ActorTitlesAppend(g.nodes, [Node(actor, Actor)]);
      assert ActorTitles([Node(actor, Actor)]) == {actor};
    }
  }

  lemma {:induction false} AddActorsTitles(g: D3Response, movIdx: nat, actors: seq<string>)
    ensures ActorTitles(AddActors(g, movIdx, actors).nodes) == ActorTitles(g.nodes) + NameSet(actors)
    decreases |actors|
  {
    if |actors| > 0 {
      var p := actors[..|actors| - 1];
      AddActorsTitles(g, movIdx, p);
      AddActorTitles(AddActors(g, movIdx, p), movIdx, actors[|actors| - 1]);
    }
  }

  lemma AddRowTitles(g: D3Response, row: GraphRow)
    ensures ActorTitles(AddRow(g, row).nodes) == ActorTitles(g.nodes) + NameSet(row.cast)
  {
    var start := D3Response(g.nodes + [Node(row.movie, Movie)], g.links);
    ActorTitlesAppend(g.nodes, [Node(row.movie, Movie)]);
    assert ActorTitles([Node(row.movie, Movie)]) == {};
    AddActorsTitles(start, |g.nodes|, row.cast);
  }

  lemma AddRowMovieCount(g: D3Response, row: GraphRow)
    ensures CountLabel(AddRow(g, row).nodes, Movie) == CountLabel(g.nodes, Movie) + 1
  {
    var n' := AddRow(g, row).nodes;
    AddRowGrows(g, row);
    AddRowAppendsActors(g, row);
    var head, rest := g.nodes + [Node(row.movie, Movie)], n'[|g.nodes| + 1..];
    assert n' == head + rest;
    assert forall i :: 0 <= i < |rest| ==> rest[i] == n'[|g.nodes| + 1 + i];
    CountLabelAbsent(rest, Movie);
    CountLabelAppend(head, rest, Movie);
    CountLabelAppend(g.nodes, [Node(row.movie, Movie)], Movie);
  }

  lemma AddRowWellTyped(g: D3Response, row: GraphRow)
    requires LinksWellTyped(g)
    ensures LinksWellTyped(AddRow(g, row))
  {
    var g' := AddRow(g, row);
    AddRowGrows(g, row);
    forall k | 0 <= k < |g'.links|
      ensures g'.links[k].source < |g'.nodes| && g'.links[k].target < |g'.nodes|
      ensures g'.nodes[g'.links[k].source].kind == Actor
      ensures g'.nodes[g'.links[k].target].kind == Movie
    {
      if k < |g.links| {
        assert g'.links[k] == g.links[k];
        assert g'.nodes[g.links[k].source] == g.nodes[g.links[k].source];
        assert g'.nodes[g.links[k].target] == g.nodes[g.links[k].target];
      } else {
        var j := k - |g.links|;
        AddRowLink(g, row, j);
        assert LinkedTo(g', |g.links| + j, row.cast[j], |g.nodes|);
        assert g'.nodes[|g.nodes|] == Node(row.movie, Movie);
      }
    }
  }

  // ---------------------------------------------------------------------
  // The whole build
  // ---------------------------------------------------------------------

  /** Each row contributes exactly one movie node, so there are as many
      movie nodes as rows. */
  lemma {:induction false} MovieNodeCount(rows: seq<GraphRow>)
    ensures CountLabel(BuildGraph(rows).nodes, Movie) == |rows|
    decreases |rows|
  {
    if |rows| > 0 {
      MovieNodeCount(rows[..|rows| - 1]);
      AddRowMovieCount(BuildGraph(rows[..|rows| - 1]), rows[|rows| - 1]);
    }
  }

  /** One link per actor entry: the link count is the total length of the
      actor lists. */
  lemma {:induction false} LinkCount(rows: seq<GraphRow>)
    ensures |BuildGraph(rows).links| == CastTotal(rows)
    decreases |rows|
  {
    if |rows| > 0 {
      LinkCount(rows[..|rows| - 1]);
      AddRowGrows(BuildGraph(rows[..|rows| - 1]), rows[|rows| - 1]);
    }
  }

  /** Every link's source is an actor node and its target a movie node, and
      both are positions of the node list. */
  lemma {:induction false} BuildGraphWellTyped(rows: seq<GraphRow>)
    ensures LinksWellTyped(BuildGraph(rows))
    decreases |rows|
  {
    if |rows| > 0 {
      BuildGraphWellTyped(rows[..|rows| - 1]);
      AddRowWellTyped(BuildGraph(rows[..|rows| - 1]), rows[|rows| - 1]);
    }
  }

  /** An actor name already present as an actor node is never appended
      again. */
  lemma {:induction false} BuildGraphActorsDistinct(rows: seq<GraphRow>)
    ensures ActorsDistinct(BuildGraph(rows).nodes)
    decreases |rows|
  {
    if |rows| > 0 {
      BuildGraphActorsDistinct(rows[..|rows| - 1]);
      AddRowKeepsDistinct(BuildGraph(rows[..|rows| - 1]), rows[|rows| - 1]);
    }
  }

  /** The actor nodes carry exactly the actor names of the rows. Movie nodes
      play no part, so an actor named like a movie still has its own actor
      node. */
  lemma {:induction false} BuildGraphActorTitles(rows: seq<GraphRow>)
    ensures ActorTitles(BuildGraph(rows).nodes) == ActorNames(rows)
    decreases |rows|
  {
    if |rows| > 0 {
      BuildGraphActorTitles(rows[..|rows| - 1]);
      AddRowTitles(BuildGraph(rows[..|rows| - 1]), rows[|rows| - 1]);
    }
  }

  /** There are as many actor nodes as distinct actor names. */
  lemma ActorNodeCount(rows: seq<GraphRow>)
    ensures CountLabel(BuildGraph(rows).nodes, Actor) == |ActorNames(rows)|
  {
    BuildGraphActorsDistinct(rows);
    DistinctActorCount(BuildGraph(rows).nodes);
    BuildGraphActorTitles(rows);
  }

  /** The node list holds one movie node per row and one actor node per
      distinct actor name, and nothing else. */
  lemma NodeCount(rows: seq<GraphRow>)
    ensures |BuildGraph(rows).nodes| == |rows| + |ActorNames(rows)|
  {
    CountLabelTotal(BuildGraph(rows).nodes);
    MovieNodeCount(rows);
    ActorNodeCount(rows);
  }

  /** Building only appends: the response for the first `i` rows is a
      prefix of the response for all of them, in both lists. */
  lemma {:induction false} AppendOnly(rows: seq<GraphRow>, i: nat)
    requires i <= |rows|
    ensures BuildGraph(rows[..i]).nodes <= BuildGraph(rows).nodes
    ensures BuildGraph(rows[..i]).links <= BuildGraph(rows).links
    decreases |rows|
  {
    if i < |rows| {
      var p := rows[..|rows| - 1];
      AppendOnly(p, i);
      AddRowGrows(BuildGraph(p), rows[|rows| - 1]);
      assert p[..i] == rows[..i];
      PrefixTrans(BuildGraph(rows[..i]).nodes, BuildGraph(p).nodes, BuildGraph(rows).nodes);
      PrefixTrans(BuildGraph(rows[..i]).links, BuildGraph(p).links, BuildGraph(rows).links);
    } else {
      assert rows[..i] == rows;
    }
  }

  lemma PrefixTrans<T>(a: seq<T>, b: seq<T>, c: seq<T>)
    requires a <= b && b <= c
    ensures a <= c
  {
    assert c[..|b|][..|a|] == c[..|a|];
  }

  /** The response for the first `r + 1` rows adds row `r` to the response
      for the first `r`. */
  lemma PrefixStep(rows: seq<GraphRow>, r: nat)
    requires r < |rows|
    ensures BuildGraph(rows[..r + 1]) == AddRow(BuildGraph(rows[..r]), rows[r])
  {
    assert rows[..r + 1][..r] == rows[..r];
  }

  /** The `j`-th actor entry of row `r` has its link, from that actor's node
      to the row's movie node, once row `r` is built. */
  lemma RowLinkBuilt(rows: seq<GraphRow>, r: nat, j: nat)
    requires r < |rows| && j < |rows[r].cast|
    ensures var before := BuildGraph(rows[..r]);
            LinkedTo(BuildGraph(rows[..r + 1]), |before.links| + j, rows[r].cast[j], |before.nodes|)
  {
    PrefixStep(rows, r);
    AddRowLink(BuildGraph(rows[..r]), rows[r], j);
  }

  /** The `j`-th actor entry of row `r` has its link, from that actor's node
      to the row's movie node, in the final response. */
  lemma RowLink(rows: seq<GraphRow>, r: nat, j: nat)
    requires r < |rows| && j < |rows[r].cast|
    ensures var before := BuildGraph(rows[..r]);
            LinkedTo(BuildGraph(rows), |before.links| + j, rows[r].cast[j], |before.nodes|)
  {
    var before, after := BuildGraph(rows[..r]), BuildGraph(rows[..r + 1]);
    RowLinkBuilt(rows, r, j);
    AppendOnly(rows, r + 1);
    LinkedToGrowsAt(after, BuildGraph(rows), |before.links| + j, rows[r].cast[j], |before.nodes|);
  }

  /** Row `r` appends its movie node at the position that follows the
      response for the earlier rows, and its links follow the earlier links,
      one per actor entry in order, each from that actor's node to this
      row's movie node. */
  lemma RowContribution(rows: seq<GraphRow>, r: nat)
    requires r < |rows|
    ensures var before, g := BuildGraph(rows[..r]), BuildGraph(rows);
            && |before.nodes| < |g.nodes|
            && g.nodes[|before.nodes|] == Node(rows[r].movie, Movie)
            && forall j :: 0 <= j < |rows[r].cast| ==>
                 LinkedTo(g, |before.links| + j, rows[r].cast[j], |before.nodes|)
  {
    RowMovieNode(rows, r);
    forall j | 0 <= j < |rows[r].cast|
      ensures LinkedTo(BuildGraph(rows), |BuildGraph(rows[..r]).links| + j, rows[r].cast[j], |BuildGraph(rows[..r]).nodes|)
    {
      RowLink(rows, r, j);
    }
  }

  /** Row `r`'s movie node follows the nodes of the earlier rows. */
  lemma RowMovieNode(rows: seq<GraphRow>, r: nat)
    requires r < |rows|
    ensures var before, g := BuildGraph(rows[..r]), BuildGraph(rows);
            |before.nodes| < |g.nodes| && g.nodes[|before.nodes|] == Node(rows[r].movie, Movie)
  {
    var before, after, g := BuildGraph(rows[..r]), BuildGraph(rows[..r + 1]), BuildGraph(rows);
    PrefixStep(rows, r);
    AddRowGrows(before, rows[r]);
    AppendOnly(rows, r + 1);
    assert g.nodes[|before.nodes|] == after.nodes[|before.nodes|];
  }

  /** Every row's movie has a movie node. */
  lemma MovieNodeOfRow(rows: seq<GraphRow>, r: nat)
    requires r < |rows|
    ensures Node(rows[r].movie, Movie) in BuildGraph(rows).nodes
  {
    RowContribution(rows, r);
  }

  lemma {:induction false} NameSetContains(names: seq<string>, j: nat)
    requires j < |names|
    ensures names[j] in NameSet(names)
    decreases |names|
  {
    if j < |names| - 1 {
      NameSetContains(names[..|names| - 1], j);
    }
  }

  lemma {:induction false} ActorNamesContains(rows: seq<GraphRow>, s: nat, j: nat)
    requires s < |rows| && j < |rows[s].cast|
    ensures rows[s].cast[j] in ActorNames(rows)
    decreases |rows|
  {
    if s < |rows| - 1 {
      ActorNamesContains(rows[..|rows| - 1], s, j);
    } else {
      NameSetContains(rows[s].cast, j);
    }
  }

  /** Every actor entry of every row has an actor node. */
  lemma ActorNodeOfEntry(rows: seq<GraphRow>, s: nat, j: nat)
    requires s < |rows| && j < |rows[s].cast|
    ensures Node(rows[s].cast[j], Actor) in BuildGraph(rows).nodes
  {
    ActorNamesContains(rows, s, j);
    BuildGraphActorTitles(rows);
    ActorTitlesMembership(BuildGraph(rows).nodes, rows[s].cast[j]);
  }

  /** A name that is both a movie title and an actor name gets a movie node
      and a separate actor node. */
  lemma SharedNameKeepsBothNodes(rows: seq<GraphRow>, r: nat, s: nat, name: string)
    requires r < |rows| && s < |rows|
    requires rows[r].movie == name && name in rows[s].cast
    ensures Node(name, Movie) in BuildGraph(rows).nodes
    ensures Node(name, Actor) in BuildGraph(rows).nodes
  {
    MovieNodeOfRow(rows, r);
    var j :| 0 <= j < |rows[s].cast| && rows[s].cast[j] == name;
    ActorNodeOfEntry(rows, s, j);
  }

  /** The graph built from the query's result rows: one movie node per
      row, no duplicate actor nodes, and well-typed links, one per actor
      entry. */
  lemma GraphOfRecords(records: seq<Values.Record>)
    requires forall i :: 0 <= i < |records| ==> GraphRecord(records[i])
    ensures CountLabel(GraphOf(records).nodes, Movie) == |records|
    ensures |GraphOf(records).links| == CastTotal(DecodeRows(records))
    ensures ActorsDistinct(GraphOf(records).nodes)
    ensures LinksWellTyped(GraphOf(records))
  {
    var rows := DecodeRows(records);
    MovieNodeCount(rows);
    LinkCount(rows);
    BuildGraphActorsDistinct(rows);
    BuildGraphWellTyped(rows);
  }

  const TopGun := GraphRow("Top Gun", ["Tom Cruise"])
  const DaysOfThunder := GraphRow("Days of Thunder", ["Tom Cruise"])
  const AfterTopGun := D3Response([Node("Top Gun", Movie), Node("Tom Cruise", Actor)], [Link(1, 0)])

  lemma ExampleFirstRow()
    ensures AddRow(EmptyResponse, TopGun) == AfterTopGun
  {
    var s1 := D3Response([Node("Top Gun", Movie)], []);
    assert [] + [Node("Top Gun", Movie)] == s1.nodes;
    assert FindActor(s1.nodes, "Tom Cruise") == -1;
    assert TopGun.cast[..0] == [];
    assert AddActors(s1, 0, TopGun.cast) == AddActor(s1, 0, "Tom Cruise");
  }

  lemma ExampleSecondRow()
    ensures AddRow(AfterTopGun, DaysOfThunder)
            == D3Response([Node("Top Gun", Movie), Node("Tom Cruise", Actor), Node("Days of Thunder", Movie)],
                          [Link(1, 0), Link(1, 2)])
  {
    var s2 := D3Response(AfterTopGun.nodes + [Node("Days of Thunder", Movie)], AfterTopGun.links);
    assert s2.nodes[1] == Node("Tom Cruise", Actor);
    assert FindActor(s2.nodes, "Tom Cruise") == 1;
    assert DaysOfThunder.cast[..0] == [];
    assert AddActors(s2, 2, DaysOfThunder.cast) == AddActor(s2, 2, "Tom Cruise");
  }

  /** One actor in two movies (Top Gun, Days of Thunder) yields one actor node
      that both links share. */
  lemma SharedActorExample(rows: seq<GraphRow>)
    requires rows == [TopGun, DaysOfThunder]
    ensures BuildGraph(rows)
            == D3Response([Node("Top Gun", Movie), Node("Tom Cruise", Actor), Node("Days of Thunder", Movie)],
                          [Link(1, 0), Link(1, 2)])
  {
    var first := rows[..1];
    assert first[..0] == [];
    assert BuildGraph(first) == AddRow(EmptyResponse, TopGun);
    ExampleFirstRow();
    assert BuildGraph(rows) == AddRow(BuildGraph(first), DaysOfThunder);
    ExampleSecondRow();
  }
}
