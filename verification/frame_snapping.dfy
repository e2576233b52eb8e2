/** Snapping a presentation timestamp (PTS, in milliseconds) to the frames of
    a video, given the list of the frames' timecodes: to the next frame, to
    the previous frame, to the nearest frame, and to a frame index. */
module FrameSnapping {

  /** A list in ascending (non-decreasing) order, as timecodes come from
      the decoder and as the event selection is kept. */
  predicate Sorted(tc: seq<int>) {
    forall i, j :: 0 <= i < j < |tc| ==> tc[i] <= tc[j]
  }

  function Abs(x: int): nat {
    if x < 0 then -x else x
  }

  // ----- next frame -----

  /** `align_pts_to_next_frame`: the first timecode, in list order, that is
      not below `pts`; `pts` itself when there is none (or no timecodes). */
  function NextFrame(tc: seq<int>, pts: int): int {
    if tc == [] then pts
    else if tc[0] >= pts then tc[0]
    else NextFrame(tc[1..], pts)
  }

  /** The next frame is never before `pts`; it is the first timecode not
      below `pts` when there is one, and `pts` itself otherwise. */
  lemma {:induction false} NextFrameSpec(tc: seq<int>, pts: int)
    ensures NextFrame(tc, pts) >= pts
    ensures (forall i :: 0 <= i < |tc| ==> tc[i] < pts) ==> NextFrame(tc, pts) == pts
    ensures forall i :: 0 <= i < |tc| && tc[i] >= pts && (forall j :: 0 <= j < i ==> tc[j] < pts) ==>
              NextFrame(tc, pts) == tc[i]
  {
    if tc != [] {
      NextFrameSpec(tc[1..], pts);
      assert forall i :: 1 <= i < |tc| ==> tc[1..][i - 1] == tc[i];
    }
  }

  /** On ascending timecodes the next frame is the smallest timecode not below `pts`. */
  lemma {:induction false} NextFrameSmallest(tc: seq<int>, pts: int)
    requires Sorted(tc)
    ensures var r := NextFrame(tc, pts);
      && r >= pts
      && (r == pts || r in tc)
      && forall i :: 0 <= i < |tc| && tc[i] >= pts ==> r <= tc[i]
  {
    if tc != [] {
      if tc[0] < pts {
        assert Sorted(tc[1..]) by {
          assert forall i :: 0 <= i < |tc[1..]| ==> tc[1..][i] == tc[i + 1];
        }
        NextFrameSmallest(tc[1..], pts);
        assert forall i :: 1 <= i < |tc| ==> tc[1..][i - 1] == tc[i];
      }
    }
  }

  // ----- previous frame -----

  /** The previous frame: the last timecode, in list order, that is not
      above `pts`; `pts` itself when there is none (or no timecodes). */
  function PrevFrame(tc: seq<int>, pts: int): int {
    if tc == [] then pts
    else if tc[|tc| - 1] <= pts then tc[|tc| - 1]
    else PrevFrame(tc[..|tc| - 1], pts)
  }

  /** On ascending timecodes the previous frame is the largest timecode not
      above `pts`, or `pts` itself when every timecode is above it. */
  lemma {:induction false} PrevFrameLargest(tc: seq<int>, pts: int)
    requires Sorted(tc)
    ensures var r := PrevFrame(tc, pts);
      && r <= pts
      && ((forall i :: 0 <= i < |tc| ==> tc[i] > pts) ==> r == pts)
      && (r == pts || r in tc)
      && forall i :: 0 <= i < |tc| && tc[i] <= pts ==> tc[i] <= r
  {
    if tc != [] && tc[|tc| - 1] > pts {
      var init := tc[..|tc| - 1];
      assert Sorted(init);
      PrevFrameLargest(init, pts);
      assert forall i :: 0 <= i < |init| ==> init[i] == tc[i];
    }
  }

  // ----- nearest frame -----

  /** The index of the timecode closest to `pts`; on a tie the earlier one wins. */
  function NearIndex(tc: seq<int>, pts: int): (k: nat)
    requires tc != []
    ensures k < |tc|
    ensures forall i :: 0 <= i < |tc| ==> Abs(tc[k] - pts) <= Abs(tc[i] - pts)
    ensures forall i :: 0 <= i < k ==> Abs(tc[i] - pts) > Abs(tc[k] - pts)
  {
    if |tc| == 1 then 0
    else
      var init := tc[..|tc| - 1];
      var j := NearIndex(init, pts);
      assert forall i :: 0 <= i < |init| ==> init[i] == tc[i];
      if Abs(tc[|tc| - 1] - pts) < Abs(tc[j] - pts) then |tc| - 1 else j
  }

  /** The nearest frame; `pts` itself when there are no timecodes. */
  function NearFrame(tc: seq<int>, pts: int): int {
    if tc == [] then pts else tc[NearIndex(tc, pts)]
  }

  /** With timecodes, the nearest frame is one of them, no other timecode is
      closer, and of two equally close ascending timecodes the earlier
      (smaller) one is chosen; below the first frame it is the first frame
      and above the last frame the last. */
  lemma NearFrameSpec(tc: seq<int>, pts: int)
    requires tc != [] && Sorted(tc)
    ensures var r := NearFrame(tc, pts);
      && r in tc
      && (forall i :: 0 <= i < |tc| ==> Abs(r - pts) <= Abs(tc[i] - pts))
      && (forall i :: 0 <= i < |tc| && Abs(tc[i] - pts) == Abs(r - pts) ==> r <= tc[i])
      && (pts <= tc[0] ==> r == tc[0])
      && (pts >= tc[|tc| - 1] ==> r == tc[|tc| - 1])
  {
    var k := NearIndex(tc, pts);
    var r := tc[k];
    forall i | 0 <= i < |tc| && Abs(tc[i] - pts) == Abs(r - pts)
      ensures r <= tc[i]
    {
      if i < k {
        assert false;
      } else {
        assert tc[k] <= tc[i];
      }
    }
    if pts <= tc[0] {
      assert tc[0] <= r;
      assert Abs(r - pts) <= Abs(tc[0] - pts);
    }
    if pts >= tc[|tc| - 1] {
      assert r <= tc[|tc| - 1];
      assert Abs(r - pts) <= Abs(tc[|tc| - 1] - pts);
    }
  }

  // ----- frame index -----

  /** The index of the last timecode not above `pts`, or -1 when there is none. */
  function LastAtMost(tc: seq<int>, pts: int): (k: int)
    ensures -1 <= k < |tc|
    ensures k >= 0 ==> tc[k] <= pts
    ensures forall i :: k < i < |tc| ==> tc[i] > pts
  {
    if tc == [] then -1
    else if tc[|tc| - 1] <= pts then |tc| - 1
    else
      var init := tc[..|tc| - 1];
      assert forall i :: 0 <= i < |init| ==> init[i] == tc[i];
      LastAtMost(init, pts)
  }

  /** `frame_idx_from_pts`: -1 without timecodes; otherwise the index of the
      last frame starting at or before `pts`, clamped to the first frame. */
  function FrameIdxFromPts(tc: seq<int>, pts: int): int {
    if tc == [] then -1
    else
      var k := LastAtMost(tc, pts);
      if k < 0 then 0 else k
  }

  /** Without timecodes the index is -1; otherwise it is a valid index, it
      is 0 for a `pts` before the first frame, and on ascending timecodes
      it picks the frame whose interval holds `pts`. */
  lemma FrameIdxSpec(tc: seq<int>, pts: int)
    ensures tc == [] ==> FrameIdxFromPts(tc, pts) == -1
    ensures tc != [] ==> 0 <= FrameIdxFromPts(tc, pts) < |tc|
    ensures tc != [] && pts < tc[0] && Sorted(tc) ==> FrameIdxFromPts(tc, pts) == 0
    ensures tc != [] && tc[0] <= pts && Sorted(tc) ==>
              var k := FrameIdxFromPts(tc, pts);
              tc[k] <= pts && (k + 1 < |tc| ==> pts < tc[k + 1])
  {
    if tc != [] && pts < tc[0] && Sorted(tc) {
      var k := LastAtMost(tc, pts);
      if k >= 0 {
        assert false;
      }
    }
  }

  /** The frame index and the previous frame agree: on ascending timecodes
      starting at or before `pts`, the previous frame is the timecode at
      the frame index. */
  lemma PrevFrameAtIndex(tc: seq<int>, pts: int)
    requires tc != [] && Sorted(tc) && tc[0] <= pts
    ensures PrevFrame(tc, pts) == tc[FrameIdxFromPts(tc, pts)]
  {
    PrevFrameLargest(tc, pts);
    FrameIdxSpec(tc, pts);
    var k := FrameIdxFromPts(tc, pts);
    var r := PrevFrame(tc, pts);
    assert r <= tc[k];
    if r != pts {
      var i :| 0 <= i < |tc| && tc[i] == r;
      if i > k {
        assert tc[i] > pts;
      }
      assert tc[i] <= tc[k];
    }
  }

  // ----- the tables of the source's tests, over the timecodes [0, 10, 20] -----

  const TC: seq<int> := [0, 10, 20]

  /** The prefixes of TC that the backward searches look at. */
  lemma TCPrefixes()
    ensures TC[..2] == [0, 10] && [0, 10][..1] == [0] && [0][..0] == []
    ensures TC[1..] == [10, 20] && [10, 20][1..] == [20] && [20][1..] == []
  {
  }

  lemma PrevFrameTable()
    ensures PrevFrame(TC, -1000) == -1000 && PrevFrame(TC, -1) == -1
    ensures PrevFrame(TC, 0) == 0 && PrevFrame(TC, 1) == 0 && PrevFrame(TC, 9) == 0
    ensures PrevFrame(TC, 10) == 10 && PrevFrame(TC, 11) == 10 && PrevFrame(TC, 19) == 10
    ensures PrevFrame(TC, 20) == 20 && PrevFrame(TC, 21) == 20 && PrevFrame(TC, 1000) == 20
  {
    TCPrefixes();
  }

  lemma NextFrameTable()
    ensures NextFrame(TC, -1000) == 0 && NextFrame(TC, -1) == 0 && NextFrame(TC, 0) == 0
    ensures NextFrame(TC, 1) == 10 && NextFrame(TC, 9) == 10 && NextFrame(TC, 10) == 10
    ensures NextFrame(TC, 11) == 20 && NextFrame(TC, 19) == 20 && NextFrame(TC, 20) == 20
    ensures NextFrame(TC, 21) == 21 && NextFrame(TC, 1000) == 1000
  {
    TCPrefixes();
  }

  /** The nearest index over TC: below 5 the first frame, from 6 to 15 the
      second, from 16 on the third. */
  lemma NearIndexTC(pts: int)
    ensures pts <= 5 ==> NearIndex(TC, pts) == 0
    ensures 6 <= pts <= 15 ==> NearIndex(TC, pts) == 1
    ensures 16 <= pts ==> NearIndex(TC, pts) == 2
  {
    TCPrefixes();
    assert NearIndex([0], pts) == 0;
    assert NearIndex([0, 10], pts) == if Abs(10 - pts) < Abs(0 - pts) then 1 else 0;
  }

  lemma NearFrameTable()
    ensures NearFrame(TC, -1000) == 0 && NearFrame(TC, -1) == 0 && NearFrame(TC, 0) == 0
    ensures NearFrame(TC, 1) == 0 && NearFrame(TC, 5) == 0 && NearFrame(TC, 6) == 10
    ensures NearFrame(TC, 9) == 10 && NearFrame(TC, 10) == 10 && NearFrame(TC, 11) == 10
    ensures NearFrame(TC, 15) == 10 && NearFrame(TC, 16) == 20 && NearFrame(TC, 19) == 20
    ensures NearFrame(TC, 20) == 20 && NearFrame(TC, 21) == 20 && NearFrame(TC, 1000) == 20
  {
    forall pts | true
      ensures NearFrame(TC, pts) == if pts <= 5 then 0 else if pts <= 15 then 10 else 20
    {
      NearIndexTC(pts);
    }
  }

  lemma FrameIdxTable()
    ensures FrameIdxFromPts([], -1) == -1 && FrameIdxFromPts([], 0) == -1
    ensures FrameIdxFromPts(TC, -1) == 0 && FrameIdxFromPts(TC, 0) == 0
    ensures FrameIdxFromPts(TC, 1) == 0 && FrameIdxFromPts(TC, 9) == 0
    ensures FrameIdxFromPts(TC, 10) == 1 && FrameIdxFromPts(TC, 11) == 1 && FrameIdxFromPts(TC, 19) == 1
    ensures FrameIdxFromPts(TC, 20) == 2 && FrameIdxFromPts(TC, 21) == 2
  {
    TCPrefixes();
  }
}
