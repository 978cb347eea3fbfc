/** Results of the decoders: a value or the exception the Python code would raise. */
module Outcomes {

  /** The exceptions the modelled code can raise, one constructor per cause. */
  datatype Error =
    | ShortHeader                      // struct.error: fewer than 106 header bytes to unpack
    | NoActiveDatagroups               // ZeroDivisionError: all 45 content flags are zero
    | KeyIndexOutOfRange(index: nat)   // IndexError: a flag position beyond the configuration keys
    | UnknownDatagroup(tag: string)    // KeyError: a parameter tag that no active slot names
    | YearOutOfRange(year: int)        // ValueError: datetime() accepts years 1..9999 only
    | DateOverflow                     // OverflowError: adding 12 hours passes 9999-12-31
    | TooFewFilenameTokens             // IndexError: no second '_'-separated filename token
    | NotANumber(text: string)         // ValueError: a token int() cannot read
    | ScalarIteration                  // TypeError: iterating a 0-d array (a squeezed 1-record column)

  datatype Result<+T> = Ok(value: T) | Err(error: Error)

  /** The outcome of a step that changes state and returns nothing. */
  datatype Status = Pass | Fail(error: Error)

  /**
    Applies f to each element in order, as a Python list comprehension does:
    every result, or the error of the first element that fails.
  */
  function MapAll<A, B>(f: A -> Result<B>, xs: seq<A>): (r: Result<seq<B>>)
    ensures r.Ok? <==> forall i :: 0 <= i < |xs| ==> f(xs[i]).Ok?
    ensures r.Ok? ==> |r.value| == |xs| && forall i :: 0 <= i < |xs| ==> r.value[i] == f(xs[i]).value
    ensures r.Err? ==> exists i :: && 0 <= i < |xs| && f(xs[i]).Err? && r.error == f(xs[i]).error
                                   && forall j :: 0 <= j < i ==> f(xs[j]).Ok?
  {
    if |xs| == 0 then Ok([])
    else
      match f(xs[0])
      case Err(e) => Err(e)
      case Ok(y) =>
        match MapAll(f, xs[1..])
        case Err(e) =>
          assert forall i :: 1 <= i < |xs| ==> xs[i] == xs[1..][i - 1];
          Err(e)
        case Ok(rest) => Ok([y] + rest)
  }
}
