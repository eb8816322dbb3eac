/** Outcome types shared by both batch scripts.  The scripts have no error
    handling of their own: every failure is an unhandled Python exception that
    aborts the run, so an error here is the name of the exception raised. */
module Common {

  datatype Option<T> = None | Some(value: T)

  /** The Python exception that aborts the run. */
  datatype PyError =
    | IndexError      // list index out of range
    | ValueError      // strptime / float() rejected its input
    | KeyError        // dictionary lookup of a missing key
    | TypeError       // string used as a list index
    | AttributeError  // method called on None or on a sub-frame
    | IOError         // input file missing
    | StructError     // struct.pack given the wrong number of values

  datatype Result<T> = Ok(value: T) | Err(error: PyError)

  /** Sum of a sequence of integers, from the right. */
  function Sum(s: seq<int>): int
  {
    if s == [] then 0 else Sum(s[..|s| - 1]) + s[|s| - 1]
  }

  /** Sum of a sequence of reals, from the right. */
  function SumReal(s: seq<real>): real
  {
    if s == [] then 0.0 else SumReal(s[..|s| - 1]) + s[|s| - 1]
  }

  lemma {:induction false} SumUpdate(s: seq<int>, i: int, x: int)
    requires 0 <= i < |s|
    ensures Sum(s[i := s[i] + x]) == Sum(s) + x
    decreases |s|
  {
    var t := s[i := s[i] + x];
    if i == |s| - 1 {
      assert t[..|t| - 1] == s[..|s| - 1];
    } else {
      assert t[..|t| - 1] == s[..|s| - 1][i := s[i] + x];
      SumUpdate(s[..|s| - 1], i, x);
    }
  }

  lemma {:induction false} SumOfZeros(s: seq<int>)
    requires forall i :: 0 <= i < |s| ==> s[i] == 0
    ensures Sum(s) == 0
    decreases |s|
  {
    if s != [] {
      SumOfZeros(s[..|s| - 1]);
    }
  }
}
