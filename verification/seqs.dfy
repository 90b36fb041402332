/** Generic scans over sequences. */
module Seqs {
  import opened Wrappers

  /** Index of the first `true` in `bs`, the shape of Python's
      `next((i for i, x in enumerate(xs) if p(x)), -1)`. */
  function FirstTrue(bs: seq<bool>): (r: Option<nat>)
    ensures r.Some? ==> r.value < |bs| && bs[r.value]
    ensures r.Some? ==> forall j :: 0 <= j < r.value ==> !bs[j]
    ensures r.None? <==> forall j :: 0 <= j < |bs| ==> !bs[j]
    decreases |bs|
  {
    if |bs| == 0 then None
    else if bs[0] then Some(0)
    else match FirstTrue(bs[1..])
      case None => None
      case Some(i) => Some(i + 1)
  }
}
