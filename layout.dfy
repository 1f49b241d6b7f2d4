/**
 * The page layout the scrolling handlers read: elements with an id and an
 * `offsetTop`, looked up by `document.getElementById`, and the header height
 * subtracted from every scroll target. The two scripts read the header
 * height in three different ways; each is a function here.
 */
module PageLayout {
  import opened JsCore

  datatype Element = Element(id: string, offsetTop: int)

  const DefaultHeaderHeight: nat := 70

  /** The ids of the page's elements, in document order. */
  function Ids(doc: seq<Element>): seq<string>
  {
    seq(|doc|, i requires 0 <= i < |doc| => doc[i].id)
  }

  /** `document.getElementById(id)` over the page's elements in document order. */
  function FindElement(doc: seq<Element>, id: string): (r: Option<Element>)
    ensures r.Some? ==> r.value in doc && r.value.id == id
    ensures r.Some? ==>
              exists k :: 0 <= k < |doc| && doc[k] == r.value && (forall j :: 0 <= j < k ==> doc[j].id != id)
    ensures r.None? <==> id == "" || forall i :: 0 <= i < |doc| ==> doc[i].id != id
  {
    var ids := Ids(doc);
    assert |ids| == |doc| && forall i :: 0 <= i < |doc| ==> ids[i] == doc[i].id;
    match GetElementById(ids, id)
    case Some(k) => Some(doc[k])
    case None => None
  }

  /** `header ? header.offsetHeight : 70` (script.js navigation links). */
  function HeaderHeightOrDefault(header: Option<nat>): nat
  {
    match header
    case Some(height) => height
    case None => DefaultHeaderHeight
  }

  /** `header?.offsetHeight || 70` (script.js hero button and scroll spy): a zero height also falls back to 70. */
  function HeaderHeightOrDefaultIfZero(header: Option<nat>): (h: nat)
    ensures h > 0
    ensures header.Some? && header.value > 0 ==> h == header.value
    ensures header.None? || header.value == 0 ==> h == DefaultHeaderHeight
  {
    match header
    case Some(height) => if height == 0 then DefaultHeaderHeight else height
    case None => DefaultHeaderHeight
  }

  /** The two fallbacks disagree only for a header that is present with zero height. */
  lemma HeaderFallbacksDiffer(header: Option<nat>)
    ensures HeaderHeightOrDefault(header) != HeaderHeightOrDefaultIfZero(header) <==>
              header == Some(0)
  {
  }
}
