/** The search and detail projections: query-result rows shaped into the
    `Movie` values the search and movie endpoints return. */
module Movies {
  import opened Values

  /** One member of a movie's cast. `role` is empty when the row carried no
      list of roles. */
  datatype Person = Person(job: string, role: seq<string>, name: string)

  /** The response movie. The search projection fills the four scalar fields
      and leaves `cast` empty; the detail projection fills `title` and `cast`
      and leaves the rest at their zero values. */
  datatype Movie = Movie(released: int64, title: string, tagline: string, votes: int64, cast: seq<Person>)

  /** One element of the search response. */
  datatype MovieResult = MovieResult(movie: Movie)

  /** The zero `Movie`: what a declared but unassigned Go `Movie` holds. */
  const EmptyMovie := Movie(0, "", "", 0, [])

  // ---------------------------------------------------------------------
  // Search projection
  // ---------------------------------------------------------------------

  /** The movie summary read from one search row; every field the row lacks
      (or holds as null, or as a value of another type) is left at zero. */
  function SummaryOf(rec: Record): Movie {
    Movie(GetInt64(rec, "released"), GetString(rec, "title"), GetString(rec, "tagline"),
          GetInt64(rec, "votes"), [])
  }

  /** The search response: one result per row, in row order. */
  function Search(records: seq<Record>): (r: seq<MovieResult>)
    ensures |r| == |records|
    ensures forall i :: 0 <= i < |records| ==> r[i] == MovieResult(SummaryOf(records[i]))
  {
    if |records| == 0 then []
    else Search(records[..|records| - 1]) + [MovieResult(SummaryOf(records[|records| - 1]))]
  }

  /** The row the search query returns for `m`. The store has no property
      for an empty tagline or a movie nobody voted for, so those columns are
      null. */
  function SearchRowOf(m: Movie): Record {
    map[
      "title" := Str(m.title),
      "tagline" := if m.tagline == "" then Null else Str(m.tagline),
      "votes" := if m.votes == 0 then Null else Integer(m.votes),
      "released" := Integer(m.released)
    ]
  }

  /** Reading a summary back from the row the query returns for it gives the
      movie back, null columns included. */
  lemma SummaryRoundTrip(m: Movie)
    requires m.cast == []
    ensures SummaryOf(SearchRowOf(m)) == m
  {
  }

  /** Searching over the rows of some movies returns exactly those movies,
      in the same order. */
  lemma SearchRoundTrip(ms: seq<Movie>)
    requires forall i :: 0 <= i < |ms| ==> ms[i].cast == []
    ensures Search(seq(|ms|, i requires 0 <= i < |ms| => SearchRowOf(ms[i])))
            == seq(|ms|, i requires 0 <= i < |ms| => MovieResult(ms[i]))
  {
    var rows := seq(|ms|, i requires 0 <= i < |ms| => SearchRowOf(ms[i]));
    var r := Search(rows);
    forall i | 0 <= i < |ms|
      ensures r[i] == MovieResult(ms[i])
    {
      SummaryRoundTrip(ms[i]);
    }
  }

  /** A missing column, a null column and a column holding a value of
      another type all read as the zero value. */
  lemma SearchDefaults(rec: Record)
    requires forall k :: k in rec ==> !rec[k].Str? && !rec[k].Integer?
    ensures SummaryOf(rec) == EmptyMovie
  {
  }

  /** Searching is a per-row map: the results for two batches of rows are
      the results for each batch, concatenated. */
  lemma SearchAppend(a: seq<Record>, b: seq<Record>)
    ensures Search(a + b) == Search(a) + Search(b)
  {
    var r, ra, rb := Search(a + b), Search(a), Search(b);
    forall i | 0 <= i < |a + b|
      ensures r[i] == (ra + rb)[i]
    {
      if i < |a| {
        assert (a + b)[i] == a[i];
      } else {
        assert (a + b)[i] == b[i - |a|];
      }
    }
  }

  /** A search row for The Matrix, and the response it yields. */
  lemma SearchExample()
    ensures Search([map["title" := Str("The Matrix"), "tagline" := Str("Welcome to the Real World"),
                        "votes" := Integer(5), "released" := Integer(1999)]])
            == [MovieResult(Movie(1999, "The Matrix", "Welcome to the Real World", 5, []))]
  {
  }

  // ---------------------------------------------------------------------
  // Detail projection
  // ---------------------------------------------------------------------

  /** The detail handler can shape `rec` without panicking: its role list, if any,
      holds only strings. */
  predicate DetailRow(rec: Record) {
    StringListColumn(rec, "role")
  }

  /** The cast member one detail row describes. The roles are taken only
      from a list; any other role value (null, missing, a string, ...)
      leaves the person without roles. */
  function PersonOf(rec: Record): (p: Person)
    requires DetailRow(rec)
    ensures p.name == GetString(rec, "name") && p.job == GetString(rec, "job")
    ensures !("role" in rec && rec["role"].List?) ==> p.role == []
    ensures "role" in rec && rec["role"].List? ==>
              |p.role| == |rec["role"].items|
              && forall j :: 0 <= j < |p.role| ==> rec["role"].items[j] == Str(p.role[j])
  {
    Person(GetString(rec, "job"), ToStringSlice(GetList(rec, "role")), GetString(rec, "name"))
  }

  /** The detail response folded over the rows in order: every row
      overwrites the title and appends one person to the cast. */
  function Detail(records: seq<Record>): (m: Movie)
    requires forall i :: 0 <= i < |records| ==> DetailRow(records[i])
    ensures |m.cast| == |records|
    ensures forall i :: 0 <= i < |records| ==> m.cast[i] == PersonOf(records[i])
    ensures m.title == if |records| == 0 then "" else GetString(records[|records| - 1], "title")
    ensures m.released == 0 && m.tagline == "" && m.votes == 0
  {
    if |records| == 0 then EmptyMovie
    else
      var m := Detail(records[..|records| - 1]);
      var rec := records[|records| - 1];
      m.(title := GetString(rec, "title"), cast := m.cast + [PersonOf(rec)])
  }

  /** Concatenating two batches of rows the detail handler can shape gives
      rows it can shape. */
  lemma DetailRowsAppend(a: seq<Record>, b: seq<Record>)
    requires forall i :: 0 <= i < |a| ==> DetailRow(a[i])
    requires forall i :: 0 <= i < |b| ==> DetailRow(b[i])
    ensures forall i :: 0 <= i < |a + b| ==> DetailRow((a + b)[i])
  {
    forall i | 0 <= i < |a + b|
      ensures DetailRow((a + b)[i])
    {
      if i < |a| { assert (a + b)[i] == a[i]; } else { assert (a + b)[i] == b[i - |a|]; }
    }
  }

  /** Folding two batches of rows: the casts concatenate. */
  lemma {:induction false} DetailAppendCast(a: seq<Record>, b: seq<Record>)
    requires forall i :: 0 <= i < |a| ==> DetailRow(a[i])
    requires forall i :: 0 <= i < |b| ==> DetailRow(b[i])
    ensures (DetailRowsAppend(a, b); Detail(a + b).cast == Detail(a).cast + Detail(b).cast)
    decreases |b|
  {
    if |b| == 0 {
      assert a + b == a;
    } else {
      var b', last := b[..|b| - 1], b[|b| - 1];
      assert (a + b)[..|a + b| - 1] == a + b';
      assert (a + b)[|a + b| - 1] == last;
      DetailAppendCast(a, b');
    }
  }

  /** Folding two batches of rows: the title is the later batch's, unless
      that batch is empty. */
  lemma DetailAppendTitle(a: seq<Record>, b: seq<Record>)
    requires forall i :: 0 <= i < |a| ==> DetailRow(a[i])
    requires forall i :: 0 <= i < |b| ==> DetailRow(b[i])
    ensures (DetailRowsAppend(a, b);
             Detail(a + b).title == if |b| == 0 then Detail(a).title else Detail(b).title)
  {
    if |b| > 0 {
      assert (a + b)[|a + b| - 1] == b[|b| - 1];
    } else {
      assert a + b == a;
    }
  }

  /** The single row the detail query returns for a movie without cast:
      the title and null person columns. */
  function NoCastRow(title: string): Record {
    map["title" := Str(title), "name" := Null, "job" := Null, "role" := Null]
  }

  /** A movie without cast still yields one cast entry, with empty name, job
      and roles, so "no cast" is distinguishable from "no movie" (no rows). */
  lemma NoCastSentinel(title: string)
    ensures DetailRow(NoCastRow(title))
    ensures Detail([NoCastRow(title)]) == Movie(0, title, "", 0, [Person("", [], "")])
    ensures Detail([]) == EmptyMovie
  {
    var m := Detail([NoCastRow(title)]);
    assert m.cast[0] == PersonOf(NoCastRow(title));
  }
}
