/** Column values of one query-result row, as the graph database driver hands
    them over, and the typed reads the projections make from them.

    A row is a map from column name to a dynamically typed value. The typed
    read `GetRecordValue[T]` yields the zero value of `T` whenever the column
    is missing, null, or holds a value of another type; the projections ignore
    the flags it also returns, so only the value matters here. */
module Values {

  datatype Option<+T> = None | Some(value: T)

  /** Go's `int64`: the driver's integer type. */
  newtype int64 = x: int | -0x8000_0000_0000_0000 <= x < 0x8000_0000_0000_0000

  /** A dynamically typed column value. `List` is Go's `[]any`; `Other`
      stands for every kind no projection reads (floats, booleans, maps,
      graph entities, ...). */
  datatype Value =
    | Null
    | Str(s: string)
    | Integer(i: int64)
    | List(items: seq<Value>)
    | Other

  type Record = map<string, Value>

  /** `GetRecordValue[string]`: the string in column `key`, or "". */
  function GetString(rec: Record, key: string): string {
    if key in rec && rec[key].Str? then rec[key].s else ""
  }

  /** `GetRecordValue[int64]`: the integer in column `key`, or 0. */
  function GetInt64(rec: Record, key: string): int64 {
    if key in rec && rec[key].Integer? then rec[key].i else 0
  }

  /** The elements of the list in column `key`, or none at all when the
      column is missing, null or not a list (`GetRecordValue[[]any]`, and the
      `[]any` case of a type switch on `Record.Get`). */
  function GetList(rec: Record, key: string): seq<Value> {
    if key in rec && rec[key].List? then rec[key].items else []
  }

  /** Every element of `items` is a string. `toStringSlice` asserts `e.(string)`
      on each element it converts, which panics otherwise. */
  predicate AllStrings(items: seq<Value>) {
    forall i :: 0 <= i < |items| ==> items[i].Str?
  }

  /** The list in column `key`, if there is one, holds only strings. */
  predicate StringListColumn(rec: Record, key: string) {
    AllStrings(GetList(rec, key))
  }

  /** `toStringSlice`: converts each element, appending in order. */
  function ToStringSlice(slice: seq<Value>): (r: seq<string>)
    requires AllStrings(slice)
    ensures |r| == |slice|
    ensures forall i :: 0 <= i < |slice| ==> Str(r[i]) == slice[i]
  {
    if |slice| == 0 then []
    else ToStringSlice(slice[..|slice| - 1]) + [slice[|slice| - 1].s]
  }

  /** The column values a list of strings arrives as. */
  function StrValues(ss: seq<string>): (vs: seq<Value>)
    ensures AllStrings(vs)
  {
    seq(|ss|, i requires 0 <= i < |ss| => Str(ss[i]))
  }

  /** Converting the driver's rendering of a string list gives the list back. */
  lemma ToStringSliceRoundTrip(ss: seq<string>)
    ensures ToStringSlice(StrValues(ss)) == ss
  {
    var r := ToStringSlice(StrValues(ss));
    assert forall i :: 0 <= i < |ss| ==> r[i] == ss[i] by {
      forall i | 0 <= i < |ss|
        ensures r[i] == ss[i]
      {
        assert Str(r[i]) == StrValues(ss)[i];
      }
    }
  }
}
