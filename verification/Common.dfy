/** Failure-compatible wrappers shared by every module of the model. */
module Common {

  /** A value that may be absent: JavaScript's `null`/`undefined` results. */
  datatype Option<+T> = None | Some(value: T) {

    function GetOr(default: T): T {
      match this
      case Some(v) => v
      case None => default
    }
  }

  /** The outcome of an operation that may throw: `Success` or the thrown error. */
  datatype Result<+T, +E> = Success(value: T) | Failure(error: E)

  /** All the values when every element is present, and nothing otherwise. */
  function AllPresent<T>(xs: seq<Option<T>>): (r: Option<seq<T>>)
    ensures r.Some? ==> |r.value| == |xs|
    ensures r.Some? ==> forall i :: 0 <= i < |xs| ==> xs[i] == Some(r.value[i])
  {
    if |xs| == 0 then Some([])
    else if xs[0].None? then None
    else match AllPresent(xs[1..])
      case None => None
      case Some(rest) =>
        assert forall i :: 1 <= i < |xs| ==> xs[i] == xs[1..][i - 1];
        Some([xs[0].value] + rest)
  }

  /** `AllPresent` fails exactly when some element is missing. */
  lemma {:induction false} AllPresentFails<T>(xs: seq<Option<T>>)
    ensures AllPresent(xs).None? <==> exists i :: 0 <= i < |xs| && xs[i].None?
    decreases |xs|
  {
    if |xs| > 0 {
      AllPresentFails(xs[1..]);
      if AllPresent(xs[1..]).None? {
        var i :| 0 <= i < |xs| - 1 && xs[1..][i].None?;
        assert xs[i + 1].None?;
      }
      if exists i :: 0 <= i < |xs| && xs[i].None? {
        var i :| 0 <= i < |xs| && xs[i].None?;
        if i > 0 {
          assert xs[1..][i - 1].None?;
        }
      }
    }
  }

  /** Appending is associative (stated once, for large element types). */
  lemma AppendAssoc<T>(a: seq<T>, b: seq<T>, c: seq<T>)
    ensures a + b + c == a + (b + c)
  {
  }
}
