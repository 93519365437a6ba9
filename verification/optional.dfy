/** A JSON field that may be absent, and Python's `dict.get(key, default)`. */
module Optional {

  datatype Option<+T> = None | Some(value: T) {

    /** The value when present, the default otherwise (`d.get(key, default)`). */
    function GetOr(default: T): T {
      match this
      case Some(v) => v
      case None => default
    }
  }

  /** The values of the leading `Some`s: a loop that stops at the first failure. */
  function UntilNone<T>(os: seq<Option<T>>): (r: seq<T>)
    ensures |r| <= |os|
    ensures forall i :: 0 <= i < |r| ==> os[i] == Some(r[i])
    ensures |r| < |os| ==> os[|r|].None?
  {
    if |os| == 0 || os[0].None? then [] else [os[0].value] + UntilNone(os[1..])
  }
}
