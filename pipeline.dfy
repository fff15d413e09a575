/** The end of the page script: dedup the collected leaves, sort them top to bottom, cut
    them into viewport-high bands and serialize the bands. */
module Pipeline {
  import opened Wrappers
  import opened Dom
  import opened Collection
  import opened Bands
  import opened Traversal

  /** The bands the script returns, before serialization. */
  function PageBands(body: Node, h: int): seq<seq<Segment>>
    requires body.Element?
  {
    Partition(SortByY(Unique(Walk([Item(body, None)]))), h)
  }

  /** `leaves.uniquify().sort()`, `new SegmentGroups(uniqueSegments).group(viewportHeight)`
      and `segmentGroups.serialize()`. */
  method SegmentPage(body: Node, viewportHeight: int) returns (serialized: seq<seq<SegmentRecord>>)
    requires body.Element?
    ensures var p := PageBands(body, viewportHeight);
            |serialized| == |p| &&
            forall k :: 0 <= k < |p| ==>
              |serialized[k]| == |p[k]| &&
              forall j :: 0 <= j < |p[k]| ==> serialized[k][j] == SerializeSegment(p[k][j])
  {
    var leaves := CollectLeaves(body);
    var uniqueSegments := leaves.Uniquify();
    uniqueSegments.Sort();
    var segmentGroups := new SegmentGroups(uniqueSegments);
    segmentGroups.Group(viewportHeight);
    serialized := segmentGroups.Serialize();
  }

  /** Dedup and sort keep only segments the walk collected, sorted by y. */
  lemma SortedUniqueFromWalk(w: seq<Segment>)
    ensures var t := SortByY(Unique(w));
            SortedByY(t) && forall x :: x in t ==> x in w
  {
    UniqueIsSubset(w);
    SortByYSorted(Unique(w));
    var t := SortByY(Unique(w));
    forall x | x in t ensures x in w {
      assert x in multiset(t);
    }
  }

  lemma NonNegativeKept(w: seq<Segment>, t: seq<Segment>)
    requires forall s :: s in w ==> s.bbox.y >= 0
    requires forall x :: x in t ==> x in w
    ensures AllNonNegative(t)
  {
    forall i | 0 <= i < |t| ensures t[i].bbox.y >= 0 {
      assert t[i] in t;
    }
  }

  /** Banding the page. `SortByY(Unique(w))` is such a t for the collected leaves w
      (`SortedUniqueFromWalk`); when every collected segment has y >= 0 so has t
      (`NonNegativeKept`); and `WalkEmitsAdmitted` gives the last requirement for
      `Walk([Item(body, None)])`. Then, for a positive viewport height, every segment of
      band k is an admitted element's box moved up by k viewport heights, at a y in
      [0, h) of its band. */
  lemma BandsOfSorted(w: seq<Segment>, t: seq<Segment>, h: int)
    requires h > 0 && SortedByY(t) && AllNonNegative(t)
    requires forall x :: x in t ==> x in w
    requires forall s :: s in w ==> s.bbox == s.el.rect && Admitted(s.el)
    ensures var p := Partition(t, h);
            forall k, e :: 0 <= k < |p| && e in p[k] ==>
              0 <= e.bbox.y < h && Admitted(e.el) &&
              e.bbox == e.el.rect.(y := e.el.rect.y - k * h)
  {
    var p := Partition(t, h);
    forall k: int, e: Segment | 0 <= k < |p| && e in p[k]
      ensures 0 <= e.bbox.y < h && Admitted(e.el) && e.bbox == e.el.rect.(y := e.el.rect.y - k * h)
    {
      var i := BandSource(t, h, k, e);
      assert t[i] in t;
      var s := t[i];
      assert s in w;
      TranslatedBox(s, e, k * h);
    }
  }

  lemma TranslatedBox(s: Segment, e: Segment, d: int)
    requires s.bbox == s.el.rect && e == Translate(s, d)
    ensures e.el == s.el && e.bbox == e.el.rect.(y := e.el.rect.y - d)
  {
  }
}
