/**
 * The few pieces of JavaScript semantics that several handlers of the site
 * rely on: optional values, the integer-or-NaN numbers that the carousel's
 * index arithmetic produces, the remainder operator `%`, and
 * `document.getElementById` over a list of element ids in document order.
 */
module JsCore {

  datatype Option<T> = None | Some(value: T)

  /** A JavaScript number as it arises in the modelled code: an integer, or NaN. */
  datatype Num = Int(v: int) | NaN

  function Abs(x: int): nat { if x < 0 then -x else x }

  /** `a + k` on JavaScript numbers: NaN stays NaN. */
  function AddInt(a: Num, k: int): (r: Num)
    ensures r.NaN? <==> a.NaN?
    ensures a.Int? ==> r.v - a.v == k
  {
    match a
    case Int(x) => Int(x + k)
    case NaN => NaN
  }

  /**
   * JavaScript's `%`: the remainder of truncating division, which takes the
   * sign of the dividend; NaN when either operand is NaN or the divisor is 0.
   * (Dafny's own `%` is Euclidean and never negative.)
   */
  function Rem(a: Num, b: Num): (r: Num)
    ensures r.Int? <==> a.Int? && b.Int? && b.v != 0
    ensures r.Int? ==> Abs(r.v) < Abs(b.v)
    ensures r.Int? ==> (a.v >= 0 ==> r.v >= 0) && (a.v <= 0 ==> r.v <= 0)
    ensures r.Int? && a.v >= 0 && b.v > 0 ==> r.v == a.v % b.v
  {
    if a.NaN? || b.NaN? || b.v == 0 then NaN
    else if a.v >= 0 then Int(a.v % Abs(b.v))
    else Int(-((-a.v) % Abs(b.v)))
  }

  /**
   * `document.getElementById(id)` restricted to a list of element ids in
   * document order: the first element carrying that id; the empty id never
   * matches.
   */
  function GetElementById(ids: seq<string>, id: string): (r: Option<nat>)
    ensures r.Some? ==> r.value < |ids| && ids[r.value] == id && id != ""
    ensures r.Some? ==> forall j :: 0 <= j < r.value ==> ids[j] != id
    ensures r.None? ==> id == "" || forall j :: 0 <= j < |ids| ==> ids[j] != id
  {
    if id == "" || ids == [] then None
    else if ids[0] == id then Some(0)
    else match GetElementById(ids[1..], id)
      case None => None
      case Some(k) => Some(k + 1)
  }

  /** With distinct ids, the element found is exactly the one carrying the id. */
  lemma GetElementByIdUnique(ids: seq<string>, id: string, j: nat)
    requires forall a, b :: 0 <= a < b < |ids| ==> ids[a] != ids[b]
    requires j < |ids|
    ensures GetElementById(ids, id) == Some(j) <==> ids[j] == id && id != ""
  {
  }
}
