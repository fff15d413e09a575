/** Segments and their collection: the `Segment` record, `Segments.add`, `sort`,
    `uniquify` and `serialize`. */
module Collection {
  import opened JsText
  import opened Dom
  import opened Classifier

  /** One classified region. `el` is the element it was built from (a reference the
      engine only reads). */
  datatype Segment = Segment(el: Elem, bbox: BBox, labelValue: LabelValue, description: string)

  /** `new Segment(el)`: the box, label and description of one element. */
  function NewSegment(el: Elem): Segment {
    Segment(el, el.rect, GetLabel(el), GetDescription(el))
  }

  /** What `Segment.serialize()` returns. */
  datatype SegmentRecord = SegmentRecord(labelValue: LabelValue, bbox: BBox, description: string)

  function SerializeSegment(s: Segment): SegmentRecord {
    SegmentRecord(s.labelValue, BBox(s.bbox.x, s.bbox.y, s.bbox.width, s.bbox.height), s.description)
  }

  /** Rebuilds a segment from its record and the element the record leaves out. */
  function Restore(r: SegmentRecord, el: Elem): Segment {
    Segment(el, r.bbox, r.labelValue, r.description)
  }

  /** Every field but the element survives serialization unchanged. */
  lemma SerializeRoundTrip(s: Segment)
    ensures Restore(SerializeSegment(s), s.el) == s
  {
  }

  // ---------------------------------------------------------------------------
  // The dedup key `x_y_w_h`.

  function Key(b: BBox): string {
    JoinNumbers([b.x, b.y, b.width, b.height])
  }

  /** The numbers in decimal, separated by "_". */
  function JoinNumbers(ns: seq<int>): string
    requires ns != []
  {
    if |ns| == 1 then IntToString(ns[0]) else IntToString(ns[0]) + "_" + JoinNumbers(ns[1..])
  }

  lemma {:induction false} JoinNumbersInjective(ms: seq<int>, ns: seq<int>)
    requires ms != [] && |ms| == |ns|
    ensures JoinNumbers(ms) == JoinNumbers(ns) <==> ms == ns
  {
    if JoinNumbers(ms) == JoinNumbers(ns) {
      if |ms| == 1 {
        IntToStringInjective(ms[0], ns[0]);
      } else {
        JoinUnderscoreInjective(IntToString(ms[0]), JoinNumbers(ms[1..]), IntToString(ns[0]), JoinNumbers(ns[1..]));
        IntToStringInjective(ms[0], ns[0]);
        JoinNumbersInjective(ms[1..], ns[1..]);
        assert ms == [ms[0]] + ms[1..] && ns == [ns[0]] + ns[1..];
      }
    }
  }

  /** Two boxes share a key exactly when all four numbers are equal. */
  lemma KeyInjective(a: BBox, b: BBox)
    ensures Key(a) == Key(b) <==> a == b
  {
    JoinNumbersInjective([a.x, a.y, a.width, a.height], [b.x, b.y, b.width, b.height]);
  }

  // ---------------------------------------------------------------------------
  // Specification of `uniquify`: keep the first segment of every key.

  /** s[j] is the first segment of s with its box (equivalently, by KeyInjective,
      with its key). */
  predicate FirstOfKey(s: seq<Segment>, j: int)
    requires 0 <= j < |s|
  {
    forall i :: 0 <= i < j ==> s[i].bbox != s[j].bbox
  }

  /** The first-of-key segments among s[..n], in input order. */
  function FirstOccurrences(s: seq<Segment>, n: nat): seq<Segment>
    requires n <= |s|
  {
    if n == 0 then []
    else FirstOccurrences(s, n - 1) + (if FirstOfKey(s, n - 1) then [s[n - 1]] else [])
  }

  /** The boxes occurring in s. */
  function Boxes(s: seq<Segment>): set<BBox> {
    set i | 0 <= i < |s| :: s[i].bbox
  }

  /** The positions FirstOccurrences keeps. */
  function FirstIndices(s: seq<Segment>, n: nat): (idx: seq<nat>)
    requires n <= |s|
    ensures forall k :: 0 <= k < |idx| ==> idx[k] < n && FirstOfKey(s, idx[k])
    ensures forall k, l :: 0 <= k < l < |idx| ==> idx[k] < idx[l]
    ensures forall j :: 0 <= j < n && FirstOfKey(s, j) ==> j in idx
  {
    if n == 0 then []
    else FirstIndices(s, n - 1) + (if FirstOfKey(s, n - 1) then [n - 1] else [])
  }

  /** Dedup keeps order: its k-th segment is the input's segment at the k-th
      first-of-key position, and those positions are exactly the first-of-key ones. */
  lemma {:induction false} FirstOccurrencesAreSubsequence(s: seq<Segment>, n: nat)
    requires n <= |s|
    ensures |FirstOccurrences(s, n)| == |FirstIndices(s, n)|
    ensures forall k :: 0 <= k < |FirstIndices(s, n)| ==>
              FirstOccurrences(s, n)[k] == s[FirstIndices(s, n)[k]]
  {
    if n > 0 {
      FirstOccurrencesAreSubsequence(s, n - 1);
    }
  }

  /** No two kept segments share a key (so no two share a box). */
  lemma {:induction false} FirstOccurrencesDistinct(s: seq<Segment>, n: nat)
    requires n <= |s|
    ensures var r := FirstOccurrences(s, n);
            forall k, l :: 0 <= k < l < |r| ==> r[k].bbox != r[l].bbox
  {
    FirstOccurrencesAreSubsequence(s, n);
    var r, idx := FirstOccurrences(s, n), FirstIndices(s, n);
    forall k, l | 0 <= k < l < |r| ensures r[k].bbox != r[l].bbox {
      assert idx[k] < idx[l] && FirstOfKey(s, idx[l]);
    }
  }

  lemma BoxesAppend(a: seq<Segment>, x: Segment)
    ensures Boxes(a + [x]) == Boxes(a) + {x.bbox}
  {
    var l := a + [x];
    forall b | b in Boxes(l) ensures b in Boxes(a) + {x.bbox} {
      var i :| 0 <= i < |l| && l[i].bbox == b;
      if i < |a| { assert l[i] == a[i]; }
    }
    forall b | b in Boxes(a) + {x.bbox} ensures b in Boxes(l) {
      if b == x.bbox {
        assert l[|a|].bbox == b;
      } else {
        var i :| 0 <= i < |a| && a[i].bbox == b;
        assert l[i] == a[i];
      }
    }
  }

  /** Every box of the input survives dedup. */
  lemma {:induction false} FirstOccurrencesKeys(s: seq<Segment>, n: nat)
    requires n <= |s|
    ensures Boxes(FirstOccurrences(s, n)) == Boxes(s[..n])
  {
    if n > 0 {
      FirstOccurrencesKeys(s, n - 1);
      assert s[..n] == s[..n - 1] + [s[n - 1]];
      BoxesAppend(s[..n - 1], s[n - 1]);
      var r := FirstOccurrences(s, n - 1);
      if FirstOfKey(s, n - 1) {
        BoxesAppend(r, s[n - 1]);
      } else {
        var i :| 0 <= i < n - 1 && s[i].bbox == s[n - 1].bbox;
        assert s[..n - 1][i].bbox == s[n - 1].bbox;
        assert s[n - 1].bbox in Boxes(s[..n - 1]);
        assert FirstOccurrences(s, n) == r;
      }
    } else {
      assert s[..0] == [];
    }
  }

  /** The keys of the segments of s: what `uniquify` has put in `seen`. */
  function KeySet(s: seq<Segment>): set<string> {
    set i | 0 <= i < |s| :: Key(s[i].bbox)
  }

  lemma KeySetAppend(a: seq<Segment>, x: Segment)
    ensures KeySet(a + [x]) == KeySet(a) + {Key(x.bbox)}
  {
    var l := a + [x];
    forall k | k in KeySet(l) ensures k in KeySet(a) + {Key(x.bbox)} {
      var i :| 0 <= i < |l| && Key(l[i].bbox) == k;
      if i < |a| { assert l[i] == a[i]; }
    }
    forall k | k in KeySet(a) + {Key(x.bbox)} ensures k in KeySet(l) {
      if k == Key(x.bbox) {
        assert Key(l[|a|].bbox) == k;
      } else {
        var i :| 0 <= i < |a| && Key(a[i].bbox) == k;
        assert l[i] == a[i];
      }
    }
  }

  /** The key of s[i] is already seen exactly when s[i] is not the first with its box. */
  lemma KeySeenIffNotFirst(s: seq<Segment>, i: nat)
    requires i < |s|
    ensures Key(s[i].bbox) in KeySet(s[..i]) <==> !FirstOfKey(s, i)
  {
    if Key(s[i].bbox) in KeySet(s[..i]) {
      var j :| 0 <= j < i && Key(s[..i][j].bbox) == Key(s[i].bbox);
      assert s[..i][j] == s[j];
      KeyInjective(s[j].bbox, s[i].bbox);
    }
    if !FirstOfKey(s, i) {
      var j :| 0 <= j < i && s[j].bbox == s[i].bbox;
      assert s[..i][j] == s[j];
    }
  }

  /** One iteration of the `uniquify` loop keeps the loop's two variables in step
      with their specification. */
  lemma UniquifyStep(s: seq<Segment>, i: nat)
    requires i < |s|
    ensures KeySet(s[..i + 1]) == KeySet(s[..i]) + {Key(s[i].bbox)}
    ensures FirstOccurrences(s, i + 1) ==
              if Key(s[i].bbox) in KeySet(s[..i]) then FirstOccurrences(s, i)
              else FirstOccurrences(s, i) + [s[i]]
  {
    assert s[..i + 1] == s[..i] + [s[i]];
    KeySetAppend(s[..i], s[i]);
    KeySeenIffNotFirst(s, i);
  }

  lemma UniquifyInvariant(s: seq<Segment>, i: nat, seen: set<string>, u: seq<Segment>, key: string)
    requires i < |s| && u == FirstOccurrences(s, i) && seen == KeySet(s[..i]) && key == Key(s[i].bbox)
    ensures (if key in seen then u else u + [s[i]]) == FirstOccurrences(s, i + 1)
    ensures (if key in seen then seen else seen + {key}) == KeySet(s[..i + 1])
  {
    UniquifyStep(s, i);
  }

  /** Dedup of the whole sequence. */
  function Unique(s: seq<Segment>): seq<Segment> {
    FirstOccurrences(s, |s|)
  }

  /** Dedup keeps only segments of its input. */
  lemma UniqueIsSubset(s: seq<Segment>)
    ensures forall x :: x in Unique(s) ==> x in s
  {
    FirstOccurrencesAreSubsequence(s, |s|);
    var r, idx := Unique(s), FirstIndices(s, |s|);
    forall x | x in r ensures x in s {
      var k :| 0 <= k < |r| && r[k] == x;
      assert x == s[idx[k]];
    }
  }

  // ---------------------------------------------------------------------------
  // Specification of `sort`: a stable sort by ascending `bbox.y` (`Array.prototype.sort`
  // with comparator `a.bbox.y - b.bbox.y`).

  predicate SortedByY(s: seq<Segment>) {
    forall i, j :: 0 <= i < j < |s| ==> s[i].bbox.y <= s[j].bbox.y
  }

  /** Places x after every element whose y is at most x's. */
  function InsertByY(x: Segment, t: seq<Segment>): (r: seq<Segment>)
    ensures multiset(r) == multiset(t) + multiset{x}
  {
    if t == [] then [x]
    else if x.bbox.y < t[|t| - 1].bbox.y then
      (assert t == t[..|t| - 1] + [t[|t| - 1]];
       InsertByY(x, t[..|t| - 1]) + [t[|t| - 1]])
    else t + [x]
  }

  function SortByY(s: seq<Segment>): (r: seq<Segment>)
    ensures multiset(r) == multiset(s)
  {
    if s == [] then []
    else
      assert s == s[..|s| - 1] + [s[|s| - 1]];
      InsertByY(s[|s| - 1], SortByY(s[..|s| - 1]))
  }

  lemma {:induction false} InsertByYElements(x: Segment, t: seq<Segment>)
    ensures forall e :: e in InsertByY(x, t) <==> e == x || e in t
  {
    if t != [] && x.bbox.y < t[|t| - 1].bbox.y {
      var u := t[..|t| - 1];
      InsertByYElements(x, u);
      assert t == u + [t[|t| - 1]];
    }
  }

  lemma {:induction false} InsertByYSorted(x: Segment, t: seq<Segment>)
    requires SortedByY(t)
    ensures SortedByY(InsertByY(x, t))
  {
    if t != [] && x.bbox.y < t[|t| - 1].bbox.y {
      var u, l := t[..|t| - 1], t[|t| - 1];
      assert SortedByY(u);
      InsertByYSorted(x, u);
      InsertByYElements(x, u);
      var r := InsertByY(x, u);
      forall i | 0 <= i < |r| ensures r[i].bbox.y <= l.bbox.y {
        assert r[i] in r;
        if r[i] != x {
          var k :| 0 <= k < |u| && u[k] == r[i];
          assert u[k] == t[k];
        }
      }
      assert InsertByY(x, t) == r + [l];
    }
  }

  /** After sorting, y never decreases. */
  lemma {:induction false} SortByYSorted(s: seq<Segment>)
    ensures SortedByY(SortByY(s))
  {
    if s != [] {
      SortByYSorted(s[..|s| - 1]);
      InsertByYSorted(s[|s| - 1], SortByY(s[..|s| - 1]));
    }
  }

  /** The segments of s with a given y, in order. */
  function WithY(s: seq<Segment>, y: int): seq<Segment> {
    if s == [] then []
    else WithY(s[..|s| - 1], y) + (if s[|s| - 1].bbox.y == y then [s[|s| - 1]] else [])
  }

  lemma {:induction false} WithYAppend(a: seq<Segment>, b: seq<Segment>, y: int)
    ensures WithY(a + b, y) == WithY(a, y) + WithY(b, y)
  {
    if b == [] {
      assert a + b == a;
    } else {
      assert (a + b)[..|a + b| - 1] == a + b[..|b| - 1];
      WithYAppend(a, b[..|b| - 1], y);
    }
  }

  lemma WithYSingle(x: Segment, y: int)
    ensures WithY([x], y) == if x.bbox.y == y then [x] else []
  {
    assert [x][..0] == [];
  }

  /** The step of InsertByYStable where x goes before the last segment l. */
  lemma InsertBeforeLastStable(x: Segment, u: seq<Segment>, v: seq<Segment>, l: Segment, y: int)
    requires x.bbox.y < l.bbox.y
    requires WithY(v, y) == WithY(u, y) + WithY([x], y)
    ensures WithY(v + [l], y) == WithY(u + [l], y) + WithY([x], y)
  {
    WithYAppend(v, [l], y);
    WithYAppend(u, [l], y);
    WithYSingle(x, y);
    WithYSingle(l, y);
    // x and l have different y, so at most one of them is kept.
    SwapEmpty(WithY(u, y), WithY([x], y), WithY([l], y));
  }

  lemma SwapEmpty(a: seq<Segment>, b: seq<Segment>, c: seq<Segment>)
    requires b == [] || c == []
    ensures a + b + c == a + c + b
  {
    if b == [] {
      assert a + b == a && c + b == c;
    } else {
      assert a + b + c == a + b && a + c == a;
    }
  }

  lemma {:induction false} InsertByYStable(x: Segment, t: seq<Segment>, y: int)
    ensures WithY(InsertByY(x, t), y) == WithY(t, y) + WithY([x], y)
  {
    if t == [] {
      WithYSingle(x, y);
    } else if x.bbox.y < t[|t| - 1].bbox.y {
      var u, l := t[..|t| - 1], t[|t| - 1];
      assert t == u + [l];
      assert InsertByY(x, t) == InsertByY(x, u) + [l];
      InsertByYStable(x, u, y);
      InsertBeforeLastStable(x, u, InsertByY(x, u), l, y);
    } else {
      assert InsertByY(x, t) == t + [x];
      WithYAppend(t, [x], y);
    }
  }

  /** Sorting is stable: segments with equal y keep their relative order. */
  lemma {:induction false} SortByYStable(s: seq<Segment>, y: int)
    ensures WithY(SortByY(s), y) == WithY(s, y)
  {
    if s != [] {
      var p, l := s[..|s| - 1], s[|s| - 1];
      assert s == p + [l];
      assert SortByY(s) == InsertByY(l, SortByY(p));
      SortByYStable(p, y);
      InsertByYStable(l, SortByY(p), y);
      WithYAppend(p, [l], y);
    }
  }

  // ---------------------------------------------------------------------------

  /** `Segments`: an ordered collection of segments held in a JavaScript array. */
  class Segments {
    var segments: seq<Segment>

    /** `new Segments()` */
    constructor Empty()
      ensures segments == []
    {
      segments := [];
    }

    /** `new Segments(segments)` */
    constructor (segments: seq<Segment>)
      ensures this.segments == segments
    {
      this.segments := segments;
    }

    /** `add(segment)`: `push` onto the array. */
    method Add(segment: Segment)
      modifies this
      ensures segments == old(segments) + [segment]
    {
      segments := segments + [segment];
    }

    /** `sort()`: in place, stable, by ascending `bbox.y`. */
    method Sort()
      modifies this
      ensures segments == SortByY(old(segments))
      ensures SortedByY(segments) && multiset(segments) == multiset(old(segments))
      ensures forall y :: WithY(segments, y) == WithY(old(segments), y)
    {
      SortByYSorted(segments);
      forall y ensures WithY(SortByY(segments), y) == WithY(segments, y) {
        SortByYStable(segments, y);
      }
      segments := SortByY(segments);
    }

    /** `uniquify()`: a new collection keeping, in order, the first segment seen for
        every `x_y_w_h` key. */
    method Uniquify() returns (r: Segments)
      ensures fresh(r) && r.segments == Unique(segments)
    {
      var src := segments;
      var uniqueSegments: seq<Segment> := [];
      var seen: set<string> := {};
      var i := 0;
      while i < |src|
        invariant 0 <= i <= |src|
        invariant uniqueSegments == FirstOccurrences(src, i)
        invariant seen == KeySet(src[..i])
      {
        var segment := src[i];
        var key := Key(segment.bbox);
        UniquifyInvariant(src, i, seen, uniqueSegments, key);
        if key !in seen {
          uniqueSegments := uniqueSegments + [segment];
          seen := seen + {key};
        }
        i := i + 1;
      }
      r := new Segments(uniqueSegments);
    }

    /** `serialize()`: one record per segment, in order. */
    method Serialize() returns (serializedSegments: seq<SegmentRecord>)
      ensures |serializedSegments| == |segments|
      ensures forall k :: 0 <= k < |segments| ==>
                serializedSegments[k] == SerializeSegment(segments[k])
    {
      serializedSegments := [];
      var i := 0;
      while i < |segments|
        invariant 0 <= i <= |segments|
        invariant |serializedSegments| == i
        invariant forall k :: 0 <= k < i ==> serializedSegments[k] == SerializeSegment(segments[k])
      {
        serializedSegments := serializedSegments + [SerializeSegment(segments[i])];
        i := i + 1;
      }
    }
  }
}
