/** The breadth-first walk of the page that collects the leaf segments: which nodes are
    passed over with their whole subtree, which emit a segment, and which are opened so
    their child nodes join the queue. */
module Traversal {
  import opened Wrappers
  import opened JsText
  import opened Dom
  import opened Collection

  /** Tags passed over together with everything below them. The list holds the literal
      "<!--...-->", which no element's tag can equal. */
  const InvisibleNodes: seq<string> :=
    ["HEAD", "META", "STYLE", "NOSCRIPT", "SCRIPT", "TEMPLATE", "CENTER", "DATA", "EMBED",
     "<!--...-->", "BDI"]

  /** Tags also passed over with their subtree. "IFAME" is spelled this way in the list, so
      an IFRAME is not passed over. */
  const SkippedNodes: seq<string> := ["IFAME", "BR", "B", "I", "STRONG", "EM", "LEGEND"]

  /** Tags that emit one segment and are not opened. */
  const LeafNodes: seq<string> := ["SVG", "IMG", "PRE", "CODE", "TEXTAREA", "INPUT", "BLOCKQUOTE"]

  /** Tags that emit one segment and are opened all the same. */
  const LeafNodesComposite: seq<string> :=
    ["TABLE", "UL", "OL", "DL", "P", "BUTTON", "FORM", "FOOTER", "NAV"]

  /** The computed-style and `checkVisibility` test that hides an element and its subtree. */
  predicate Hidden(e: Elem) {
    e.style.visibility == "hidden" || e.style.visibility == "none" || e.style.opacity == "0" ||
    !e.checkVisibility
  }

  /** An element the walk does not pass over: neither its tag nor its style hides it. */
  predicate Admitted(e: Elem) {
    var name := Upper(e.tagName);
    name !in InvisibleNodes && name !in SkippedNodes && !Hidden(e)
  }

  /** A queued node together with the element whose `childNodes` it came from
      (`el.parentElement`); the first node has none recorded. */
  datatype Item = Item(node: Node, parent: Option<Elem>)

  /** Each node counts one, plus its descendants. */
  function NodeSize(n: Node): (k: nat)
    ensures k >= 1
  {
    match n
    case Element(_, children) => 1 + SumSizes(children)
    case _ => 1
  }

  function SumSizes(ns: seq<Node>): nat {
    if ns == [] then 0 else NodeSize(ns[0]) + SumSizes(ns[1..])
  }

  function QueueSize(q: seq<Item>): nat {
    if q == [] then 0 else NodeSize(q[0].node) + QueueSize(q[1..])
  }

  lemma {:induction false} QueueSizeAppend(a: seq<Item>, b: seq<Item>)
    ensures QueueSize(a + b) == QueueSize(a) + QueueSize(b)
  {
    if a == [] {
      assert a + b == b;
    } else {
      assert (a + b)[1..] == a[1..] + b;
      QueueSizeAppend(a[1..], b);
    }
  }

  /** `els.push(...el.childNodes)`: each child queued with e as its parent element. */
  function Items(children: seq<Node>, e: Elem): (q: seq<Item>)
    ensures |q| == |children|
    ensures forall i :: 0 <= i < |q| ==> q[i] == Item(children[i], Some(e))
  {
    if children == [] then [] else [Item(children[0], Some(e))] + Items(children[1..], e)
  }

  lemma {:induction false} ItemsSize(children: seq<Node>, e: Elem)
    ensures QueueSize(Items(children, e)) == SumSizes(children)
  {
    if children != [] {
      ItemsSize(children[1..], e);
    }
  }

  /** Every text node in the queue knows its parent element. */
  predicate ParentsKnown(q: seq<Item>) {
    forall i :: 0 <= i < |q| ==> q[i].node.Text? ==> q[i].parent.Some?
  }

  /** What one turn of the loop does with a node: the segments it adds to `leaves` and the
      nodes it pushes onto `els`. */
  datatype Visit = Visit(emitted: seq<Segment>, queued: seq<Item>)

  /** `if (b) leaves.add(new Segment(e))` */
  function SegmentIf(b: bool, e: Elem): seq<Segment> {
    if b then [NewSegment(e)] else []
  }

  /** One turn of the loop, in the order of its tests. */
  function VisitItem(it: Item): (v: Visit)
    requires it.node.Text? ==> it.parent.Some?
    ensures QueueSize(v.queued) < NodeSize(it.node)
    ensures ParentsKnown(v.queued)
  {
    match it.node
    case Text(data) =>
      if HasText(data) then Visit([NewSegment(it.parent.value)], []) else Visit([], [])
    case OtherNode => Visit([], [])
    case Element(e, children) =>
      var name := Upper(e.tagName);
      if name in InvisibleNodes || name in SkippedNodes then Visit([], [])
      else if Hidden(e) then Visit([], [])
      else
        var composite := SegmentIf(name in LeafNodesComposite, e);
        if name in LeafNodes then Visit(composite + [NewSegment(e)], [])
        else if ChildElementCount(children) == 0 then
          var text := SegmentIf(HasText(e.textContent), e);
          var image := SegmentIf(Slice(e.style.backgroundImage, 0, 3) == "url", e);
          Visit(composite + text + image, [])
        else
          ItemsSize(children, e);
          Visit(composite, Items(children, e))
  }

  /** The whole loop from queue q on: everything it adds to `leaves`, in order. */
  function Walk(q: seq<Item>): seq<Segment>
    requires ParentsKnown(q)
    decreases QueueSize(q)
  {
    if q == [] then []
    else
      var v := VisitItem(q[0]);
      QueueSizeAppend(q[1..], v.queued);
      v.emitted + Walk(q[1..] + v.queued)
  }

  /** The same segments gathered depth first: a node's own segments, then its subtree's. */
  function Emits(it: Item): seq<Segment>
    requires it.node.Text? ==> it.parent.Some?
    decreases NodeSize(it.node), 0
  {
    var v := VisitItem(it);
    v.emitted + EmitsAll(v.queued)
  }

  function EmitsAll(q: seq<Item>): seq<Segment>
    requires ParentsKnown(q)
    decreases QueueSize(q), 1
  {
    if q == [] then [] else Emits(q[0]) + EmitsAll(q[1..])
  }

  lemma {:induction false} EmitsAllAppend(a: seq<Item>, b: seq<Item>)
    requires ParentsKnown(a) && ParentsKnown(b)
    ensures ParentsKnown(a + b)
    ensures EmitsAll(a + b) == EmitsAll(a) + EmitsAll(b)
    decreases |a|
  {
    if a == [] {
      assert a + b == b;
    } else {
      assert (a + b)[0] == a[0] && (a + b)[1..] == a[1..] + b;
      EmitsAllAppend(a[1..], b);
    }
  }

  /** Breadth first or depth first, the walk adds the same segments, each as often. */
  lemma {:induction false} WalkIsPreorderUpToOrder(q: seq<Item>)
    requires ParentsKnown(q)
    ensures multiset(Walk(q)) == multiset(EmitsAll(q))
    decreases QueueSize(q)
  {
    if q != [] {
      var v := VisitItem(q[0]);
      QueueSizeAppend(q[1..], v.queued);
      EmitsAllAppend(q[1..], v.queued);
      WalkIsPreorderUpToOrder(q[1..] + v.queued);
    }
  }

  // ---------------------------------------------------------------------------
  // The emission rules, one node at a time.

  /** An invisible, skipped or hidden element adds nothing, and nothing below it does. */
  lemma SubtreeExcluded(e: Elem, children: seq<Node>, parent: Option<Elem>)
    requires !Admitted(e)
    ensures Emits(Item(Element(e, children), parent)) == []
  {
  }

  /** A leaf element adds exactly one segment for itself, whatever it contains. */
  lemma LeafDoesNotDescend(e: Elem, children: seq<Node>, parent: Option<Elem>)
    requires Admitted(e) && Upper(e.tagName) in LeafNodes
    ensures Emits(Item(Element(e, children), parent)) == [NewSegment(e)]
  {
    LeafTagsAreNotComposite(Upper(e.tagName));
  }

  lemma LeafTagsAreNotComposite(name: string)
    ensures name in LeafNodes ==> name !in LeafNodesComposite
  {
  }

  /** A composite element with element children adds its own segment and is opened. */
  lemma CompositeEmitsAndDescends(e: Elem, children: seq<Node>, parent: Option<Elem>)
    requires Admitted(e) && Upper(e.tagName) in LeafNodesComposite
    requires ChildElementCount(children) > 0
    ensures Emits(Item(Element(e, children), parent)) ==
            [NewSegment(e)] + EmitsAll(Items(children, e))
  {
    LeafTagsAreNotComposite(Upper(e.tagName));
  }

  /** An ordinary admitted element with element children adds nothing itself; its child
      nodes are queued in document order. */
  lemma OrdinaryElementDescends(e: Elem, children: seq<Node>, parent: Option<Elem>)
    requires Admitted(e) && Upper(e.tagName) !in LeafNodes && Upper(e.tagName) !in LeafNodesComposite
    requires ChildElementCount(children) > 0
    ensures VisitItem(Item(Element(e, children), parent)) == Visit([], Items(children, e))
  {
  }

  /** An admitted element that is neither a leaf nor a composite and has no element
      children is opened no further; it adds one segment for its text and one for a
      `url(...)` background, possibly both. */
  lemma ChildlessElement(e: Elem, children: seq<Node>, parent: Option<Elem>)
    requires Admitted(e) && Upper(e.tagName) !in LeafNodes && Upper(e.tagName) !in LeafNodesComposite
    requires forall i :: 0 <= i < |children| ==> !children[i].Element?
    ensures var v := VisitItem(Item(Element(e, children), parent));
            v.queued == [] &&
            |v.emitted| == (if HasText(e.textContent) then 1 else 0) +
                           (if StartsWith(e.style.backgroundImage, "url") then 1 else 0) &&
            forall i :: 0 <= i < |v.emitted| ==> v.emitted[i] == NewSegment(e)
  {
    ChildlessVisit(e, children, parent);
    SliceUrlPrefix(e.style.backgroundImage);
  }

  /** A composite element with no element children (`<p>hello</p>`) is not opened: it
      adds its composite segment, then one for its text and one for a `url(...)`
      background, possibly both. */
  lemma ChildlessComposite(e: Elem, children: seq<Node>, parent: Option<Elem>)
    requires Admitted(e) && Upper(e.tagName) in LeafNodesComposite
    requires forall i :: 0 <= i < |children| ==> !children[i].Element?
    ensures var v := VisitItem(Item(Element(e, children), parent));
            v.queued == [] &&
            |v.emitted| == 1 + (if HasText(e.textContent) then 1 else 0) +
                               (if StartsWith(e.style.backgroundImage, "url") then 1 else 0) &&
            forall i :: 0 <= i < |v.emitted| ==> v.emitted[i] == NewSegment(e)
  {
    LeafTagsAreNotComposite(Upper(e.tagName));
    ChildlessVisit(e, children, parent);
    SliceUrlPrefix(e.style.backgroundImage);
  }

  /** The turn of an admitted, non-leaf element without element children. */
  lemma ChildlessVisit(e: Elem, children: seq<Node>, parent: Option<Elem>)
    requires Admitted(e) && Upper(e.tagName) !in LeafNodes
    requires forall i :: 0 <= i < |children| ==> !children[i].Element?
    ensures VisitItem(Item(Element(e, children), parent)) ==
            Visit(SegmentIf(Upper(e.tagName) in LeafNodesComposite, e) +
                  SegmentIf(HasText(e.textContent), e) +
                  SegmentIf(Slice(e.style.backgroundImage, 0, 3) == "url", e), [])
  {
    assert ChildElementCount(children) == 0;
  }

  /** A text node with text adds the segment of its parent element; a blank one adds none. */
  lemma TextEmitsParent(data: string, parent: Elem)
    ensures Emits(Item(Text(data), Some(parent))) ==
            if exists i :: 0 <= i < |data| && !IsJsSpace(data[i]) then [NewSegment(parent)] else []
  {
    HasTextIffNonSpace(data);
  }

  /** Because of the "IFAME" spelling, an IFRAME (in any case) is not passed over by tag. */
  lemma IframeIsNotSkipped(e: Elem)
    requires Upper(e.tagName) == "IFRAME"
    ensures Admitted(e) <==> !Hidden(e)
  {
  }

  // ---------------------------------------------------------------------------
  // What every collected segment is.

  /** Every queued item's recorded parent was admitted. */
  predicate ParentsAdmitted(q: seq<Item>) {
    forall i :: 0 <= i < |q| ==> q[i].parent.Some? ==> Admitted(q[i].parent.value)
  }

  /** Each segment one turn adds is `new Segment` of an admitted element. */
  lemma VisitEmitsAdmitted(it: Item)
    requires it.node.Text? ==> it.parent.Some?
    requires it.parent.Some? ==> Admitted(it.parent.value)
    ensures var v := VisitItem(it);
            ParentsAdmitted(v.queued) &&
            forall s :: s in v.emitted ==> s == NewSegment(s.el) && Admitted(s.el)
  {
    var v := VisitItem(it);
    match it.node {
      case Element(e, children) =>
        if Admitted(e) {
          assert forall s :: s in v.emitted ==> s == NewSegment(e);
          assert v.queued == [] || v.queued == Items(children, e);
        } else {
          assert v == Visit([], []);
        }
      case Text(_) =>
      case OtherNode =>
    }
  }

  /** Dropping the front of an admitted queue and pushing admitted items keeps it admitted. */
  lemma AdmittedRest(q: seq<Item>, pushed: seq<Item>)
    requires q != [] && ParentsAdmitted(q) && ParentsAdmitted(pushed)
    ensures ParentsAdmitted(q[1..] + pushed)
  {
    var r := q[1..] + pushed;
    forall i | 0 <= i < |r| && r[i].parent.Some? ensures Admitted(r[i].parent.value) {
      if i < |q| - 1 {
        assert r[i] == q[i + 1];
      } else {
        assert r[i] == pushed[i - (|q| - 1)];
      }
    }
  }

  /** Every segment the walk collects is `new Segment(el)` of an element that is not
      invisible, skipped or hidden. */
  lemma {:induction false} WalkEmitsAdmitted(q: seq<Item>)
    requires ParentsKnown(q) && ParentsAdmitted(q)
    ensures forall s :: s in Walk(q) ==> s == NewSegment(s.el) && Admitted(s.el)
    decreases QueueSize(q)
  {
    if q != [] {
      var v := VisitItem(q[0]);
      VisitEmitsAdmitted(q[0]);
      QueueSizeAppend(q[1..], v.queued);
      AdmittedRest(q, v.queued);
      WalkEmitsAdmitted(q[1..] + v.queued);
    }
  }

  lemma WalkStep(q: seq<Item>)
    requires q != [] && ParentsKnown(q)
    ensures var v := VisitItem(q[0]);
            ParentsKnown(q[1..] + v.queued) && QueueSize(q[1..] + v.queued) < QueueSize(q) &&
            Walk(q) == v.emitted + Walk(q[1..] + v.queued)
  {
    QueueSizeAppend(q[1..], VisitItem(q[0]).queued);
  }

  lemma Concat3(a: seq<Segment>, b: seq<Segment>, c: seq<Segment>, d: seq<Segment>)
    ensures a + b + c + d == a + (b + c + d)
  {
  }

  /** One turn of the loop keeps `leaves.segments + Walk(els)` fixed. */
  lemma LoopStep(q: seq<Item>, acc: seq<Segment>, all: seq<Segment>)
    requires q != [] && ParentsKnown(q) && acc + Walk(q) == all
    ensures var v := VisitItem(q[0]);
            ParentsKnown(q[1..] + v.queued) && QueueSize(q[1..] + v.queued) < QueueSize(q) &&
            (acc + v.emitted) + Walk(q[1..] + v.queued) == all
  {
    var v := VisitItem(q[0]);
    WalkStep(q);
    var w := Walk(q[1..] + v.queued);
    assert acc + Walk(q) == acc + (v.emitted + w);
    assert acc + (v.emitted + w) == (acc + v.emitted) + w;
  }

  // ---------------------------------------------------------------------------

  /** One turn of the loop: the tests applied to the node taken off the front of `els`,
      in their order, adding to `leaves` and returning the child nodes to push. */
  method Turn(it: Item, leaves: Segments) returns (pushed: seq<Item>)
    requires it.node.Text? ==> it.parent.Some?
    modifies leaves
    ensures leaves.segments == old(leaves.segments) + VisitItem(it).emitted
    ensures pushed == VisitItem(it).queued
  {
    ghost var v := VisitItem(it);
    pushed := [];
    if it.node.Text? && HasText(it.node.data) {
      leaves.Add(NewSegment(it.parent.value));
      return;
    }

    if !it.node.Element? {
      return;
    }

    var el := it.node.elem;
    var nodeName := Upper(el.tagName);

    if nodeName in InvisibleNodes || nodeName in SkippedNodes {
      return;
    }

    if Hidden(el) {
      return;
    }

    ghost var start := leaves.segments;
    if nodeName in LeafNodesComposite {
      leaves.Add(NewSegment(el));
    }
    ghost var composite := SegmentIf(nodeName in LeafNodesComposite, el);
    assert leaves.segments == start + composite;

    if nodeName in LeafNodes {
      leaves.Add(NewSegment(el));
      return;
    }

    if ChildElementCount(it.node.children) == 0 {
      if HasText(el.textContent) {
        leaves.Add(NewSegment(el));
      }
      ghost var text := SegmentIf(HasText(el.textContent), el);
      assert leaves.segments == start + composite + text;
      if Slice(el.style.backgroundImage, 0, 3) == "url" {
        leaves.Add(NewSegment(el));
      }
      ghost var image := SegmentIf(Slice(el.style.backgroundImage, 0, 3) == "url", el);
      assert v.emitted == composite + text + image;
      Concat3(start, composite, text, image);
      return;
    }

    pushed := Items(it.node.children, el);
  }

  /** The loop over `els`, starting from `document.body`, adding to a fresh `leaves`. */
  method CollectLeaves(body: Node) returns (leaves: Segments)
    requires body.Element?
    ensures fresh(leaves) && leaves.segments == Walk([Item(body, None)])
  {
    var els := [Item(body, None)];
    ghost var all := Walk(els);
    leaves := new Segments.Empty();
    while |els| > 0
      invariant ParentsKnown(els)
      invariant fresh(leaves)
      invariant leaves.segments + Walk(els) == all
      decreases QueueSize(els)
    {
      var el := els[0];
      LoopStep(els, leaves.segments, all);
      els := els[1..];
      var pushed := Turn(el, leaves);
      els := els + pushed;
    }
  }
}
