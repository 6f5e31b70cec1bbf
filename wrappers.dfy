/** The optional value used wherever the Rust code returns `Option` or panics
    on malformed input (a parse that panics is modelled as `None`). */
module Wrappers {

  datatype Option<+T> = None | Some(value: T) {

    function GetOr(default: T): T {
      match this
      case Some(v) => v
      case None => default
    }
  }

  /** The parsed values when every piece parsed, `None` otherwise (the
      `unwrap` of each piece). */
  function Collect<T>(parsed: seq<Option<T>>): (r: Option<seq<T>>)
    ensures r.Some? <==> forall k :: 0 <= k < |parsed| ==> parsed[k].Some?
    ensures r.Some? ==> |r.value| == |parsed|
    ensures r.Some? ==> forall k :: 0 <= k < |parsed| ==> parsed[k] == Some(r.value[k])
  {
    if parsed == [] then Some([])
    else if parsed[0].None? then None
    else
      match Collect(parsed[1..])
      case None => None
      case Some(ps) => Some([parsed[0].value] + ps)
  }
}
