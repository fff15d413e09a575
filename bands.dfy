/** `SegmentGroups`: the single pass that cuts the sorted segments into bands one
    viewport high, translating each placed segment's y into its band's coordinates. */
module Bands {
  import opened Dom
  import opened Collection

  /** `segment.bbox.y -= offset` */
  function Translate(s: Segment, offset: int): (t: Segment)
    ensures t.bbox.y + offset == s.bbox.y
    ensures t.el == s.el && t.labelValue == s.labelValue && t.description == s.description
    ensures t.bbox.(y := s.bbox.y) == s.bbox
  {
    s.(bbox := s.bbox.(y := s.bbox.y - offset))
  }

  /** Where the loop of `group` stands: the closed bands, the open band and `offset`. */
  datatype GroupState = GroupState(groups: seq<seq<Segment>>, group: seq<Segment>, offset: int)

  /** One iteration: a segment whose top lies above `offset + h` is translated into the
      open band; any other segment closes the band and advances `offset` by h, and is
      itself placed nowhere. */
  function Step(st: GroupState, s: Segment, h: int): GroupState {
    if s.bbox.y < st.offset + h then st.(group := st.group + [Translate(s, st.offset)])
    else GroupState(st.groups + [st.group], [], st.offset + h)
  }

  /** The state after the loop has visited all of s. */
  function Fold(s: seq<Segment>, h: int): GroupState {
    if s == [] then GroupState([], [], 0) else Step(Fold(s[..|s| - 1], h), s[|s| - 1], h)
  }

  /** The bands `group(h)` appends: the closed ones and then the last open one. */
  function Partition(s: seq<Segment>, h: int): seq<seq<Segment>> {
    Bands(Fold(s, h))
  }

  /** s[i] takes the first branch of the loop (it is placed in the open band). */
  predicate Placed(s: seq<Segment>, h: int, i: nat)
    requires i < |s|
  {
    s[i].bbox.y < Fold(s[..i], h).offset + h
  }

  /** How many of the first n segments take the `else` branch. */
  function DropCount(s: seq<Segment>, h: int, n: nat): nat
    requires n <= |s|
  {
    if n == 0 then 0 else DropCount(s, h, n - 1) + (if Placed(s, h, n - 1) then 0 else 1)
  }

  function TotalSize(bs: seq<seq<Segment>>): nat {
    if bs == [] then 0 else TotalSize(bs[..|bs| - 1]) + |bs[|bs| - 1]|
  }

  lemma PrefixOfPrefix(s: seq<Segment>, n: nat)
    requires 0 < n <= |s|
    ensures s[..n][..n - 1] == s[..n - 1] && s[..n][n - 1] == s[n - 1]
  {
  }

  /** The state after n segments is one step past the state after n - 1. */
  lemma FoldStep(s: seq<Segment>, h: int, n: nat)
    requires 0 < n <= |s|
    ensures Fold(s[..n], h) == Step(Fold(s[..n - 1], h), s[n - 1], h)
  {
    PrefixOfPrefix(s, n);
  }

  /** The running `offset` is always one band height per closed band. */
  lemma {:induction false} FoldOffset(s: seq<Segment>, h: int, n: nat)
    requires n <= |s|
    ensures Fold(s[..n], h).offset == h * |Fold(s[..n], h).groups|
  {
    if n == 0 {
      assert s[..0] == [];
    } else {
      FoldOffset(s, h, n - 1);
      FoldStep(s, h, n);
      StepOffset(Fold(s[..n - 1], h), s[n - 1], h);
    }
  }

  /** One step keeps `offset` at h per closed band. */
  lemma StepOffset(st: GroupState, x: Segment, h: int)
    requires st.offset == h * |st.groups|
    ensures Step(st, x, h).offset == h * |Step(st, x, h).groups|
  {
    if x.bbox.y >= st.offset + h {
      var m := |st.groups|;
      assert |Step(st, x, h).groups| == m + 1;
      assert h * (m + 1) == h * m + h;
    }
  }

  /** The number of closed bands is the number of dropped segments, and every segment is
      either placed or dropped. */
  lemma {:induction false} FoldCounts(s: seq<Segment>, h: int, n: nat)
    requires n <= |s|
    ensures |Fold(s[..n], h).groups| == DropCount(s, h, n)
    ensures TotalSize(Fold(s[..n], h).groups) + |Fold(s[..n], h).group| + DropCount(s, h, n) == n
  {
    if n == 0 {
      assert s[..0] == [];
    } else {
      FoldCounts(s, h, n - 1);
      FoldStep(s, h, n);
      var st := Fold(s[..n - 1], h);
      if !Placed(s, h, n - 1) {
        var gs := st.groups + [st.group];
        assert gs[..|st.groups|] == st.groups;
        assert TotalSize(gs) == TotalSize(st.groups) + |st.group|;
      }
    }
  }

  /** The number of bands is one more than the number of dropped segments, and placed
      plus dropped segments make up the input. */
  lemma BandCounts(s: seq<Segment>, h: int)
    ensures |Partition(s, h)| == 1 + DropCount(s, h, |s|)
    ensures TotalSize(Partition(s, h)) + DropCount(s, h, |s|) == |s|
  {
    FoldCounts(s, h, |s|);
    assert s[..|s|] == s;
    var st := Fold(s, h);
    assert (st.groups + [st.group])[..|st.groups|] == st.groups;
  }

  predicate AllNonNegative(s: seq<Segment>) {
    forall i :: 0 <= i < |s| ==> s[i].bbox.y >= 0
  }

  /** e, found in band k, is a placed input segment moved up by k band heights. */
  predicate FromPlaced(s: seq<Segment>, h: int, n: nat, k: int, e: Segment)
    requires n <= |s|
  {
    exists i :: 0 <= i < n && Placed(s, h, i) && e == Translate(s[i], k * h)
  }

  /** Over a sorted input the running offset never passes a segment still to come. */
  lemma {:induction false} FoldBelow(s: seq<Segment>, h: int, n: nat)
    requires h > 0 && SortedByY(s) && AllNonNegative(s) && n <= |s|
    ensures forall j :: n <= j < |s| ==> Fold(s[..n], h).offset <= s[j].bbox.y
  {
    if n == 0 {
      assert s[..0] == [];
    } else {
      FoldBelow(s, h, n - 1);
      FoldStep(s, h, n);
      forall j | n <= j < |s| ensures Fold(s[..n], h).offset <= s[j].bbox.y {
        assert s[n - 1].bbox.y <= s[j].bbox.y;
      }
    }
  }

  /** e may sit in band k: it lies in [0, h) and comes from a placed segment. */
  predicate BandMember(s: seq<Segment>, h: int, n: nat, k: int, e: Segment)
    requires n <= |s|
  {
    0 <= e.bbox.y < h && FromPlaced(s, h, n, k, e)
  }

  /** Every segment in the bands after n steps is a `BandMember` of its band. */
  predicate BandsSound(s: seq<Segment>, h: int, n: nat)
    requires n <= |s|
  {
    var st := Fold(s[..n], h);
    (forall k, e :: 0 <= k < |st.groups| && e in st.groups[k] ==> BandMember(s, h, n, k, e)) &&
    (forall e :: e in st.group ==> BandMember(s, h, n, |st.groups|, e))
  }

  lemma BandMemberGrows(s: seq<Segment>, h: int, n: nat, k: int, e: Segment)
    requires n < |s| && BandMember(s, h, n, k, e)
    ensures BandMember(s, h, n + 1, k, e)
  {
    var i :| 0 <= i < n && Placed(s, h, i) && e == Translate(s[i], k * h);
  }

  /** A placed segment joins the open band at a y in [0, h). */
  lemma BandsSoundPlaced(s: seq<Segment>, h: int, n: nat)
    requires h > 0 && SortedByY(s) && AllNonNegative(s) && 0 < n <= |s|
    requires BandsSound(s, h, n - 1) && Placed(s, h, n - 1)
    ensures BandsSound(s, h, n)
  {
    FoldStep(s, h, n);
    FoldBelow(s, h, n - 1);
    FoldOffset(s, h, n - 1);
    var st := Fold(s[..n - 1], h);
    var t := Translate(s[n - 1], st.offset);
    assert Fold(s[..n], h) == st.(group := st.group + [t]);
    assert t == Translate(s[n - 1], |st.groups| * h);
    assert BandMember(s, h, n, |st.groups|, t);
    forall k: int, e: Segment | 0 <= k < |st.groups| && e in st.groups[k]
      ensures BandMember(s, h, n, k, e)
    {
      BandMemberGrows(s, h, n - 1, k, e);
    }
    forall e: Segment | e in st.group + [t] ensures BandMember(s, h, n, |st.groups|, e) {
      if e != t { BandMemberGrows(s, h, n - 1, |st.groups|, e); }
    }
  }

  /** A dropped segment closes the open band and leaves every band's contents as they were. */
  lemma BandsSoundDropped(s: seq<Segment>, h: int, n: nat)
    requires 0 < n <= |s|
    requires BandsSound(s, h, n - 1) && !Placed(s, h, n - 1)
    ensures BandsSound(s, h, n)
  {
    FoldStep(s, h, n);
    var st := Fold(s[..n - 1], h);
    var gs := st.groups + [st.group];
    assert Fold(s[..n], h) == GroupState(gs, [], st.offset + h);
    forall k: int, e: Segment | 0 <= k < |gs| && e in gs[k] ensures BandMember(s, h, n, k, e) {
      if k < |st.groups| {
        assert gs[k] == st.groups[k];
      } else {
        assert gs[k] == st.group;
      }
      BandMemberGrows(s, h, n - 1, k, e);
    }
  }

  /** The invariant of the loop over a sorted, non-negative input: every segment so far
      placed lies in [0, h) of its band and comes from a placed input segment shifted by
      its band's start. */
  lemma {:induction false} FoldBands(s: seq<Segment>, h: int, n: nat)
    requires h > 0 && SortedByY(s) && AllNonNegative(s) && n <= |s|
    ensures BandsSound(s, h, n)
  {
    if n == 0 {
      assert s[..0] == [];
    } else {
      FoldBands(s, h, n - 1);
      if Placed(s, h, n - 1) {
        BandsSoundPlaced(s, h, n);
      } else {
        BandsSoundDropped(s, h, n);
      }
    }
  }

  /** Banding a sorted input with no negative y: every placed segment's translated y is
      in [0, h), and band k holds only input segments whose document y lies in
      [k*h, (k+1)*h), each moved up by k*h. */
  lemma BandsAreLocal(s: seq<Segment>, h: int)
    requires h > 0 && SortedByY(s) && AllNonNegative(s)
    ensures var p := Partition(s, h);
            forall k, e :: 0 <= k < |p| && e in p[k] ==>
              0 <= e.bbox.y < h && k * h <= e.bbox.y + k * h < (k + 1) * h &&
              exists i :: 0 <= i < |s| && Placed(s, h, i) && e == Translate(s[i], k * h)
  {
    var p := Partition(s, h);
    forall k: int, e: Segment | 0 <= k < |p| && e in p[k]
      ensures 0 <= e.bbox.y < h && k * h <= e.bbox.y + k * h < (k + 1) * h &&
              FromPlaced(s, h, |s|, k, e)
    {
      InBand(s, h, k, e);
      BandRange(k, h, e.bbox.y);
    }
  }

  /** A segment of band k of the whole input is a `BandMember` of that band. */
  lemma InBand(s: seq<Segment>, h: int, k: nat, e: Segment)
    requires h > 0 && SortedByY(s) && AllNonNegative(s)
    requires k < |Partition(s, h)| && e in Partition(s, h)[k]
    ensures BandMember(s, h, |s|, k, e)
  {
    FoldBands(s, h, |s|);
    assert s[..|s|] == s;
    var st := Fold(s, h);
    if k < |st.groups| {
      assert Partition(s, h)[k] == st.groups[k];
    } else {
      assert Partition(s, h)[k] == st.group;
    }
  }

  /** A y in [0, h) moved down by k band heights lies in band k's document range. */
  lemma BandRange(k: nat, h: int, y: int)
    requires 0 <= y < h
    ensures k * h <= y + k * h < (k + 1) * h
  {
    assert (k + 1) * h == k * h + h;
  }

  /** A dropped segment advances `offset` by one band height and closes the open band. */
  lemma DroppedAdvances(s: seq<Segment>, h: int, i: nat)
    requires i < |s| && !Placed(s, h, i)
    ensures var before, after := Fold(s[..i], h), Fold(s[..i + 1], h);
            after.offset == before.offset + h && after.groups == before.groups + [before.group] &&
            after.group == []
  {
    FoldStep(s, h, i + 1);
  }

  /** The closed bands and the open one. */
  function Bands(st: GroupState): seq<seq<Segment>> {
    st.groups + [st.group]
  }

  /** A step never shrinks or reorders a band: each band is a prefix of what it becomes. */
  predicate Extends(st: GroupState, st': GroupState) {
    |Bands(st)| <= |Bands(st')| && forall k :: 0 <= k < |Bands(st)| ==> Bands(st)[k] <= Bands(st')[k]
  }

  lemma StepExtends(st: GroupState, x: Segment, h: int)
    ensures Extends(st, Step(st, x, h))
  {
    var st' := Step(st, x, h);
    if x.bbox.y < st.offset + h {
      forall k | 0 <= k < |Bands(st)| ensures Bands(st)[k] <= Bands(st')[k] {
        if k < |st.groups| { assert Bands(st)[k] == Bands(st')[k]; }
      }
    } else {
      forall k | 0 <= k < |Bands(st)| ensures Bands(st)[k] <= Bands(st')[k] {
        assert Bands(st)[k] == Bands(st')[k];
      }
    }
  }

  lemma {:induction false} FoldExtends(s: seq<Segment>, h: int, n: nat, m: nat)
    requires n <= m <= |s|
    ensures Extends(Fold(s[..n], h), Fold(s[..m], h))
  {
    if n < m {
      FoldExtends(s, h, n, m - 1);
      FoldStep(s, h, m);
      StepExtends(Fold(s[..m - 1], h), s[m - 1], h);
      var a, b, c := Bands(Fold(s[..n], h)), Bands(Fold(s[..m - 1], h)), Bands(Fold(s[..m], h));
      forall k | 0 <= k < |a| ensures a[k] <= c[k] {
        assert a[k] <= b[k] <= c[k];
      }
    }
  }

  /** The converse of `BandsAreLocal`: each placed segment does end up in a band, in
      band k = the number of segments dropped before it, moved up by k band heights. */
  lemma PlacedIsInBand(s: seq<Segment>, h: int, i: nat)
    requires i < |s| && Placed(s, h, i)
    ensures var p, k := Partition(s, h), DropCount(s, h, i);
            k < |p| && Translate(s[i], k * h) in p[k]
  {
    var k := DropCount(s, h, i);
    var t := Translate(s[i], k * h);
    PlacedJoinsOpenBand(s, h, i);
    var b := Bands(Fold(s[..i + 1], h));
    FoldExtends(s, h, i + 1, |s|);
    assert s[..|s|] == s;
    assert b[k] <= Partition(s, h)[k];
  }

  /** Right after its step, a placed segment is the last one of band DropCount(s, h, i). */
  lemma PlacedJoinsOpenBand(s: seq<Segment>, h: int, i: nat)
    requires i < |s| && Placed(s, h, i)
    ensures var b, k := Bands(Fold(s[..i + 1], h)), DropCount(s, h, i);
            k < |b| && Translate(s[i], k * h) in b[k]
  {
    FoldStep(s, h, i + 1);
    FoldOffset(s, h, i);
    FoldCounts(s, h, i);
    var st := Fold(s[..i], h);
    var t := Translate(s[i], st.offset);
    assert Fold(s[..i + 1], h) == st.(group := st.group + [t]);
    assert t == Translate(s[i], |st.groups| * h);
  }

  /** Where a banded segment came from, as a witness: band k's e is the placed input
      segment s[i] moved up by k band heights. */
  lemma BandSource(s: seq<Segment>, h: int, k: nat, e: Segment) returns (i: nat)
    requires h > 0 && SortedByY(s) && AllNonNegative(s)
    requires k < |Partition(s, h)| && e in Partition(s, h)[k]
    ensures i < |s| && Placed(s, h, i) && e == Translate(s[i], k * h) && 0 <= e.bbox.y < h
  {
    InBand(s, h, k, e);
    i :| 0 <= i < |s| && Placed(s, h, i) && e == Translate(s[i], k * h);
  }

  /** A segment that takes the `else` branch is in no band: when the input's boxes are
      distinct (as after `uniquify`), no band k holds it moved up by k band heights. */
  lemma DroppedIsInNoBand(s: seq<Segment>, h: int, i: nat)
    requires h > 0 && SortedByY(s) && AllNonNegative(s)
    requires forall a, b :: 0 <= a < b < |s| ==> s[a].bbox != s[b].bbox
    requires i < |s| && !Placed(s, h, i)
    ensures var p := Partition(s, h);
            forall k, e :: 0 <= k < |p| && e in p[k] ==> e.(bbox := e.bbox.(y := e.bbox.y + k * h)) != s[i]
  {
    var p := Partition(s, h);
    forall k: int, e: Segment | 0 <= k < |p| && e in p[k]
      ensures e.(bbox := e.bbox.(y := e.bbox.y + k * h)) != s[i]
    {
      var j := BandSource(s, h, k, e);
      assert e.(bbox := e.bbox.(y := e.bbox.y + k * h)) == s[j];
      assert j != i;
      assert s[j].bbox != s[i].bbox by {
        if j < i { assert s[j].bbox != s[i].bbox; } else { assert s[i].bbox != s[j].bbox; }
      }
    }
  }

  /** With h = 720 and segments at y = 100, 800, 1500, the segment at 800 closes band 0
      and is dropped, although its y lies in band 1; the one at 1500 closes band 1 and is
      dropped too. Three bands come out, the last two empty. */
  lemma DroppedExample(a: Segment, b: Segment, c: Segment)
    requires a.bbox.y == 100 && b.bbox.y == 800 && c.bbox.y == 1500
    ensures Partition([a, b, c], 720) == [[a], [], []]
    ensures !Placed([a, b, c], 720, 1) && !Placed([a, b, c], 720, 2)
  {
    var s := [a, b, c];
    assert s[..0] == [] && s[..1] == [a] && s[..2] == [a, b] && s[..3] == s;
    assert [a][..0] == [] && [a, b][..1] == [a] && s[..2] == [a, b];
    assert Fold([a], 720) == GroupState([], [a], 0);
    assert Fold([a, b], 720) == GroupState([[a]], [], 720);
    assert Fold(s, 720) == GroupState([[a], []], [], 1440);
  }

  // ---------------------------------------------------------------------------

  /** The `Segments` objects of gs hold the bands bs, one for one. */
  predicate Mirrors(gs: seq<Segments>, bs: seq<seq<Segment>>)
    reads gs
  {
    |gs| == |bs| && forall k :: 0 <= k < |gs| ==> gs[k].segments == bs[k]
  }

  lemma MirrorsAppend(gs: seq<Segments>, bs: seq<seq<Segment>>, g: Segments, b: seq<Segment>)
    requires Mirrors(gs, bs) && g.segments == b
    ensures Mirrors(gs + [g], bs + [b])
  {
  }

  /** `SegmentGroups`: the sorted collection and the bands cut from it. */
  class SegmentGroups {
    var groups: seq<Segments>
    var segments: Segments

    /** `new SegmentGroups(segments)` */
    constructor (segments: Segments)
      ensures groups == [] && this.segments == segments
    {
      groups := [];
      this.segments := segments;
    }

    /** One iteration of `group`'s loop: a segment above `offset + viewportHeight` is
        translated into the open band; any other closes the band, which a fresh empty one
        replaces, and advances the offset. Stated as one `Step` of the loop's state st,
        whose closed bands `groups[n0..]` hold. */
    method Place(segment: Segment, group: Segments, offset: int, viewportHeight: int,
                 ghost n0: nat, ghost st: GroupState)
      returns (next: Segments, nextOffset: int)
      requires n0 <= |groups| && group !in groups && group != segments
      requires Mirrors(groups[n0..], st.groups) && group.segments == st.group && offset == st.offset
      modifies this, group
      ensures segments == old(segments)
      ensures groups == old(groups) || groups == old(groups) + [group]
      ensures next == group || fresh(next)
      ensures next !in groups && next != segments
      ensures var st' := Step(st, segment, viewportHeight);
              Mirrors(groups[n0..], st'.groups) && next.segments == st'.group && nextOffset == st'.offset
    {
      if segment.bbox.y < offset + viewportHeight {
        group.Add(Translate(segment, offset));
        next, nextOffset := group, offset;
      } else {
        MirrorsAppend(groups[n0..], st.groups, group, st.group);
        assert (groups + [group])[n0..] == groups[n0..] + [group];
        groups := groups + [group];
        next := new Segments.Empty();
        nextOffset := offset + viewportHeight;
      }
    }

    /** `group(viewportHeight)`: appends one fresh `Segments` per band of `Partition`. */
    method Group(viewportHeight: int)
      modifies this
      ensures segments == old(segments) && segments.segments == old(segments.segments)
      ensures var p := Partition(segments.segments, viewportHeight);
              |groups| == |old(groups)| + |p| && groups[..|old(groups)|] == old(groups) &&
              forall k :: 0 <= k < |p| ==>
                fresh(groups[|old(groups)| + k]) && groups[|old(groups)| + k].segments == p[k]
    {
      var src := segments.segments;
      ghost var n0 := |groups|;
      var group := new Segments.Empty();
      var offset := 0;
      var i := 0;
      ghost var st := GroupState([], [], 0);
      assert src[..0] == [];
      while i < |src|
        invariant 0 <= i <= |src| && segments == old(segments) && src == segments.segments
        invariant st == Fold(src[..i], viewportHeight)
        invariant n0 <= |groups| && groups[..n0] == old(groups)
        invariant fresh(group) && group !in groups
        invariant forall k :: n0 <= k < |groups| ==> fresh(groups[k])
        invariant group.segments == st.group && offset == st.offset
        invariant Mirrors(groups[n0..], st.groups)
      {
        FoldStep(src, viewportHeight, i + 1);
        group, offset := Place(src[i], group, offset, viewportHeight, n0, st);
        st := Step(st, src[i], viewportHeight);
        i := i + 1;
      }
      MirrorsAppend(groups[n0..], st.groups, group, st.group);
      assert (groups + [group])[n0..] == groups[n0..] + [group];
      groups := groups + [group];
      assert src[..|src|] == src;
    }

    /** `serialize()`: the records of every band, band by band. */
    method Serialize() returns (serializedSegmentGroups: seq<seq<SegmentRecord>>)
      ensures |serializedSegmentGroups| == |groups|
      ensures forall k :: 0 <= k < |groups| ==>
                |serializedSegmentGroups[k]| == |groups[k].segments| &&
                forall j :: 0 <= j < |groups[k].segments| ==>
                  serializedSegmentGroups[k][j] == SerializeSegment(groups[k].segments[j])
    {
      serializedSegmentGroups := [];
      var i := 0;
      while i < |groups|
        invariant 0 <= i <= |groups|
        invariant |serializedSegmentGroups| == i
        invariant forall k :: 0 <= k < i ==>
                    |serializedSegmentGroups[k]| == |groups[k].segments| &&
                    forall j :: 0 <= j < |groups[k].segments| ==>
                      serializedSegmentGroups[k][j] == SerializeSegment(groups[k].segments[j])
      {
        var records := groups[i].Serialize();
        serializedSegmentGroups := serializedSegmentGroups + [records];
        i := i + 1;
      }
    }
  }
}
