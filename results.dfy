/** Failure-compatible result values, and the Python exceptions and exits of the merge tool. */
module Results {

  datatype Option<+T> = None | Some(value: T)

  datatype Result<+T, +E> = Ok(value: T) | Err(error: E) {
    predicate IsFailure() { Err? }

    function PropagateFailure<U>(): Result<U, E>
      requires Err?
    {
      Err(error)
    }

    function Extract(): T
      requires Ok?
    {
      value
    }
  }

  /** The ways a merge step ends without output: an uncaught Python exception or `sys.exit`. */
  datatype Error =
    | KeyError(key: string)        // a missing dictionary key or data-frame column label
    | KeyLabels(labels: set<string>)  // the subset labels `DataFrame.duplicated` finds missing, raised together
    | IndexError                   // a list index past the end
    | TypeError(reason: string)    // `str.join` over an item that is not a string
    | ValueError(reason: string)   // `pd.concat` over an empty list
    | Exit(status: int)            // `sys.exit(status)`

  /** The first of `wanted` that `present` lacks: the key whose lookup raises KeyError first. */
  function FirstNotIn(present: set<string>, wanted: seq<string>): (r: Option<string>)
    ensures r.None? <==> forall k :: 0 <= k < |wanted| ==> wanted[k] in present
    ensures r.Some? ==> exists k :: 0 <= k < |wanted| && wanted[k] == r.value && r.value !in present
                                    && forall j :: 0 <= j < k ==> wanted[j] in present
    decreases |wanted|
  {
    if |wanted| == 0 then None
    else if wanted[0] !in present then Some(wanted[0])
    else
      var r := FirstNotIn(present, wanted[1..]);
      if r.Some? then
        var k :| 0 <= k < |wanted[1..]| && wanted[1..][k] == r.value && r.value !in present
                 && forall j :: 0 <= j < k ==> wanted[1..][j] in present;
        assert wanted[k + 1] == r.value;
        r
      else r
  }

  /** A lookup of `wanted` in order fails first at `wanted[n]` when that is missing and all before it are present. */
  lemma {:induction false} FirstNotInAt(present: set<string>, wanted: seq<string>, n: nat)
    requires n < |wanted| && wanted[n] !in present
    requires forall j :: 0 <= j < n ==> wanted[j] in present
    ensures FirstNotIn(present, wanted) == Some(wanted[n])
    decreases n
  {
    if n > 0 {
      FirstNotInAt(present, wanted[1..], n - 1);
    }
  }

  /** A key found first does not change which later key is missing first. */
  lemma FirstNotInCons(present: set<string>, key: string, wanted: seq<string>)
    requires key in present
    ensures FirstNotIn(present, [key] + wanted) == FirstNotIn(present, wanted)
  {
    assert ([key] + wanted)[1..] == wanted;
  }
}
