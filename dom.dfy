/** The read-only view of the rendered page that the segmentation engine walks.
    Everything the browser computes (layout, style, visibility, listeners, the custom
    element registry) is captured as a field of the element's facade. */
module Dom {
  import opened Wrappers

  /** `getBoundingClientRect()`, in integer pixels. */
  datatype BBox = BBox(x: int, y: int, width: int, height: int)

  /** The three properties of `getComputedStyle(el)` the engine reads. */
  datatype Style = Style(visibility: string, opacity: string, backgroundImage: string)

  /** An element as the engine sees it. */
  datatype Elem = Elem(
    tagName: string,              // el.tagName (el.nodeName), as the tree reports it
    parentTagName: string,        // el.parentElement.tagName
    classList: seq<string>,
    textContent: string,          // el.textContent
    attributes: map<string, string>,
    style: Style,
    rect: BBox,
    checkVisibility: bool,        // el.checkVisibility()
    clickListeners: bool,         // window.getEventListeners(el)['click']; false where absent
    customElement: bool)          // window.customElements.get(tag) is defined

  /** A DOM node: text, element (with all child nodes, in order), or any other kind. */
  datatype Node = Text(data: string) | Element(elem: Elem, children: seq<Node>) | OtherNode

  /** `el.getAttribute(name)` */
  function GetAttribute(e: Elem, name: string): Option<string> {
    if name in e.attributes then Some(e.attributes[name]) else None
  }

  /** `el.childElementCount` */
  function ChildElementCount(children: seq<Node>): (n: nat)
    ensures n <= |children|
    ensures n == 0 <==> forall i :: 0 <= i < |children| ==> !children[i].Element?
  {
    if children == [] then 0
    else (if children[0].Element? then 1 else 0) + ChildElementCount(children[1..])
  }
}
