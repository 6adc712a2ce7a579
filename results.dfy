/** Outcomes of the pipeline steps: the Python exceptions the feature functions can raise
    become `Err` values instead of preconditions. */
module Results {

  datatype Option<+T> = None | Some(value: T)

  /** The exceptions the feature pipeline can raise, by kind. */
  datatype Failure =
    | ParseError(input: string)          // ValueError from strptime / to_datetime
    | OutOfBoundsDatetime(input: string) // a date outside pandas' nanosecond range
    | MissingColumn(name: string)        // KeyError on a DataFrame built from an empty list
    | SampleTooSmall(rows: nat)          // ValueError from DataFrame.sample(5) on fewer rows
    | LengthMismatch                     // ValueError: arrays of different length in one DataFrame
    | DuplicateEntries                   // ValueError from pivot: duplicate (index, column) pair

  datatype Result<+T> = Ok(value: T) | Err(error: Failure)

  /** Applies `f` row by row, stopping at the first row that fails, as a
      pandas `map`/`apply` does when the mapped function raises. */
  function MapResult<T, U>(s: seq<T>, f: T -> Result<U>): (r: Result<seq<U>>)
    ensures r.Ok? <==> forall i :: 0 <= i < |s| ==> f(s[i]).Ok?
    ensures r.Ok? ==> |r.value| == |s| && forall i :: 0 <= i < |s| ==> f(s[i]) == Ok(r.value[i])
    ensures r.Err? ==> exists i :: 0 <= i < |s| && f(s[i]) == Err(r.error) &&
                                   forall j :: 0 <= j < i ==> f(s[j]).Ok?
  {
    if s == [] then Ok([])
    else
      match f(s[0])
      case Err(e) => Err(e)
      case Ok(y) =>
        match MapResult(s[1..], f)
        case Err(e) =>
          assert forall j :: 1 <= j < |s| ==> s[j] == s[1..][j - 1];
          Err(e)
        case Ok(ys) => Ok([y] + ys)
  }
}
