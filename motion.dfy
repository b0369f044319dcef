/** The motion-segment tracker of the motion detector: with the per-frame detector reduced to
    one boolean per frame, a two-state machine (idle, in motion) turns the frames into
    [start, end] intervals of seconds. Frame numbers are 1-based: the time of the frame at
    index k is (k + 1) / fps. */
module Motion {
  import opened Wrappers
  import opened Corners

  /** A [start, end] interval of seconds in which motion was seen. */
  datatype Interval = Interval(start: real, end: real)

  /** A maximal run of motion frames by 0-based frame index: frames first .. stop - 1 show
      motion; stop is the still frame that ends the run, or the frame count when the video
      ends in motion. */
  datatype Run = Run(first: nat, stop: nat)

  /** The frame rate used when the container reports none. */
  const DefaultFps: real := 30.0

  /** The reported frame rate, with 0 replaced by the default. */
  function EffectiveFps(reported: real): (fps: real)
    ensures fps != 0.0
    ensures reported != 0.0 ==> fps == reported
  {
    if reported == 0.0 then DefaultFps else reported
  }

  /** The time stamp of 1-based frame number `frameNumber`. */
  function Time(frameNumber: int, fps: real): real
    requires fps != 0.0
  {
    frameNumber as real / fps
  }

  /** The runs after frame k is seen: a motion frame extends a run that reaches it or starts
      a new one; a still frame changes nothing. */
  function Extend(rs: seq<Run>, k: nat, motion: bool): seq<Run> {
    if !motion then rs
    else if IsOpen(rs, k) then rs[..|rs| - 1] + [Run(rs[|rs| - 1].first, k + 1)]
    else rs + [Run(k, k + 1)]
  }

  /** Every run is non-empty and lies within the first n frames. */
  predicate Bounded(rs: seq<Run>, n: nat) {
    forall i :: 0 <= i < |rs| ==> rs[i].first < rs[i].stop <= n
  }

  lemma ExtendBounded(rs: seq<Run>, k: nat, motion: bool)
    requires Bounded(rs, k)
    ensures Bounded(Extend(rs, k, motion), k + 1)
    ensures motion <==> IsOpen(Extend(rs, k, motion), k + 1)
  {
    var e := Extend(rs, k, motion);
    if motion && IsOpen(rs, k) {
      assert forall i :: 0 <= i < |rs| - 1 ==> e[i] == rs[i];
    } else if motion {
      assert forall i :: 0 <= i < |rs| ==> e[i] == rs[i];
    } else if |rs| > 0 {
      assert rs[|rs| - 1].stop <= k;
    }
  }

  /** The maximal runs of motion frames of `m`, in order, defined frame by frame. */
  function Runs(m: seq<bool>): (rs: seq<Run>)
    ensures Bounded(rs, |m|)
    ensures (|m| > 0 && m[|m| - 1]) <==> IsOpen(rs, |m|)
    decreases |m|
  {
    if m == [] then []
    else
      var ps := Runs(m[..|m| - 1]);
      ExtendBounded(ps, |m| - 1, m[|m| - 1]);
      Extend(ps, |m| - 1, m[|m| - 1])
  }

  /** The last run reaches frame n, i.e. motion is still in progress after n frames. */
  predicate IsOpen(rs: seq<Run>, n: nat) {
    |rs| > 0 && rs[|rs| - 1].stop == n
  }

  /** How many runs are closed after n frames: all but an open last one. */
  function ClosedCount(rs: seq<Run>, n: nat): nat {
    if IsOpen(rs, n) then |rs| - 1 else |rs|
  }

  /** A run closed by a still frame spans from its first frame's time to the still frame's. */
  function ClosedInterval(r: Run, fps: real, round2: real -> real): Interval
    requires fps != 0.0
  {
    Interval(round2(Time(r.first + 1, fps)), round2(Time(r.stop + 1, fps)))
  }

  /** The interval of a run of a video of n frames: a run still open at the end closes at the
      video's duration, the reported frame count divided by the frame rate. */
  function SegmentOf(r: Run, n: nat, fps: real, totalFrames: int, round2: real -> real): Interval
    requires fps != 0.0
  {
    if r.stop == n then Interval(round2(Time(r.first + 1, fps)), round2(Time(totalFrames, fps)))
    else ClosedInterval(r, fps, round2)
  }

  /** The segments reported for the frames `m`: one per maximal run. `round2` is rounding to
      two decimals. */
  function Segments(m: seq<bool>, fps: real, totalFrames: int, round2: real -> real): (r: seq<Interval>)
    requires fps != 0.0
    ensures |r| == RisingEdges(m)
  {
    RunsCount(m);
    var rs := Runs(m);
    seq(|rs|, i requires 0 <= i < |rs| => SegmentOf(rs[i], |m|, fps, totalFrames, round2))
  }

  /** Number of idle-to-motion edges, starting idle. */
  function RisingEdges(m: seq<bool>): nat
    decreases |m|
  {
    if m == [] then 0
    else
      var k := |m| - 1;
      RisingEdges(m[..k]) + (if m[k] && (k == 0 || !m[k - 1]) then 1 else 0)
  }

  /** One more frame: the runs of the first n + 1 frames extend those of the first n. */
  lemma RunsStep(m: seq<bool>, n: nat)
    requires n < |m|
    ensures Runs(m[..n + 1]) == Extend(Runs(m[..n]), n, m[n])
  {
    assert m[..n + 1][..n] == m[..n];
  }

  /** The tracker's state after n frames agrees with the runs `rs` of those frames: it is in
      motion exactly when the last run is still open, `startTime` is then that run's start time,
      and the closed runs have been reported in order. */
  predicate Agrees(rs: seq<Run>, n: nat, inMotion: bool, startTime: real, segments: seq<Interval>,
                   fps: real, round2: real -> real)
    requires fps != 0.0
  {
    && inMotion == IsOpen(rs, n)
    && (inMotion ==> startTime == Time(rs[|rs| - 1].first + 1, fps))
    && |segments| == ClosedCount(rs, n)
    && forall i :: 0 <= i < |segments| ==> segments[i] == ClosedInterval(rs[i], fps, round2)
  }

  ghost predicate Tracked(m: seq<bool>, n: nat, inMotion: bool, startTime: real, segments: seq<Interval>,
                          fps: real, round2: real -> real)
    requires n <= |m| && fps != 0.0
  {
    Agrees(Runs(m[..n]), n, inMotion, startTime, segments, fps, round2)
  }

  /** The state machine's transition on frame n (frame number n + 1) follows `Extend`. */
  lemma AgreesExtend(rs: seq<Run>, n: nat, motion: bool, inMotion: bool, startTime: real,
                     segments: seq<Interval>, fps: real, round2: real -> real)
    requires fps != 0.0 && Bounded(rs, n)
    requires Agrees(rs, n, inMotion, startTime, segments, fps, round2)
    ensures var now, e := Time(n + 1, fps), Extend(rs, n, motion);
      if motion && !inMotion then Agrees(e, n + 1, true, now, segments, fps, round2)
      else if !motion && inMotion then
        Agrees(e, n + 1, false, startTime, segments + [Interval(round2(startTime), round2(now))], fps, round2)
      else Agrees(e, n + 1, inMotion, startTime, segments, fps, round2)
  {
    var e := Extend(rs, n, motion);
    ExtendBounded(rs, n, motion);
    if motion {
      assert forall i :: 0 <= i < |segments| ==> e[i] == rs[i];
    } else if |rs| > 0 {
      assert rs[|rs| - 1].stop <= n;
    }
  }

  /** One frame of the state machine keeps the tracker in step with the runs. */
  lemma TrackedStep(m: seq<bool>, n: nat, inMotion: bool, startTime: real, segments: seq<Interval>,
                    fps: real, round2: real -> real)
    requires n < |m| && fps != 0.0
    requires Tracked(m, n, inMotion, startTime, segments, fps, round2)
    ensures var now := Time(n + 1, fps);
      if m[n] && !inMotion then Tracked(m, n + 1, true, now, segments, fps, round2)
      else if !m[n] && inMotion then
        Tracked(m, n + 1, false, startTime, segments + [Interval(round2(startTime), round2(now))], fps, round2)
      else Tracked(m, n + 1, inMotion, startTime, segments, fps, round2)
  {
    RunsStep(m, n);
    AgreesExtend(Runs(m[..n]), n, m[n], inMotion, startTime, segments, fps, round2);
  }

  /** After the last frame, closing an open run at the video's duration yields the segments. */
  lemma TrackedEnd(m: seq<bool>, inMotion: bool, startTime: real, segments: seq<Interval>,
                   fps: real, totalFrames: int, round2: real -> real)
    requires fps != 0.0
    requires Tracked(m, |m|, inMotion, startTime, segments, fps, round2)
    ensures (if inMotion then segments + [Interval(round2(startTime), round2(Time(totalFrames, fps)))]
             else segments) == Segments(m, fps, totalFrames, round2)
  {
    assert m[..|m|] == m;
    OnlyLastOpen(m);
  }

  /** The detection loop, with the video reduced to `isOpened` (whether the video could be
      opened), the reported frame rate and frame count, and one detector verdict per frame
      read. The region's corners are put in canonical order first; with fewer than four that
      raises an IndexError, modelled as None. */
  method DetectMotionSegments(isOpened: bool, reportedFps: real, totalFrames: int, roiCorners: seq<Point>,
                              motion: seq<bool>, round2: real -> real) returns (r: Option<seq<Interval>>)
    ensures !isOpened ==> r == Some([])
    ensures isOpened && |roiCorners| < 4 ==> r == None
    ensures isOpened && |roiCorners| >= 4 ==>
      r == Some(Segments(motion, EffectiveFps(reportedFps), totalFrames, round2))
  {
    if !isOpened {
      return Some([]);
    }
    var fps := EffectiveFps(reportedFps);
    var videoDuration := totalFrames as real / fps;
    OrderPointsUnfold(roiCorners);
    var orderedCorners := OrderPoints(roiCorners);
    if orderedCorners.None? {
      return None;
    }
    var segments: seq<Interval> := [];
    var motionDetected := false;
    var startTime: real := 0.0;
    var frameNumber := 0;
    assert motion[..0] == [];
    while frameNumber < |motion|
      invariant 0 <= frameNumber <= |motion|
      invariant Tracked(motion, frameNumber, motionDetected, startTime, segments, fps, round2)
    {
      TrackedStep(motion, frameNumber, motionDetected, startTime, segments, fps, round2);
      var isMotionPresent := motion[frameNumber];
      frameNumber := frameNumber + 1;
      var currentTime := Time(frameNumber, fps);
      if isMotionPresent && !motionDetected {
        motionDetected := true;
        startTime := currentTime;
      } else if !isMotionPresent && motionDetected {
        motionDetected := false;
        var endTime := currentTime;
        segments := segments + [Interval(round2(startTime), round2(endTime))];
      }
    }
    TrackedEnd(motion, motionDetected, startTime, segments, fps, totalFrames, round2);
    if motionDetected {
      segments := segments + [Interval(round2(startTime), round2(videoDuration))];
    }
    r := Some(segments);
  }

  /** Runs are in order and separated by at least one still frame. */
  predicate Ordered(rs: seq<Run>) {
    forall i, j :: 0 <= i < j < |rs| ==> rs[i].stop < rs[j].first
  }

  /** Every frame of every run shows motion. */
  predicate InMotion(rs: seq<Run>, m: seq<bool>) {
    forall i, j :: 0 <= i < |rs| && rs[i].first <= j < rs[i].stop ==> j < |m| && m[j]
  }

  /** Runs are maximal: the frame before a run and the frame that ends it are still. */
  predicate Maximal(rs: seq<Run>, m: seq<bool>) {
    forall i :: 0 <= i < |rs| ==>
      && (0 < rs[i].first <= |m| ==> !m[rs[i].first - 1])
      && (rs[i].stop < |m| ==> !m[rs[i].stop])
  }

  /** Every motion frame lies in a run. */
  predicate Covered(rs: seq<Run>, m: seq<bool>) {
    forall j :: 0 <= j < |m| && m[j] ==> exists i :: 0 <= i < |rs| && rs[i].first <= j < rs[i].stop
  }

  lemma ExtendOrdered(rs: seq<Run>, k: nat, motion: bool)
    requires Bounded(rs, k) && Ordered(rs)
    ensures Ordered(Extend(rs, k, motion))
  {
    var e := Extend(rs, k, motion);
    if motion && !IsOpen(rs, k) {
      forall i, j | 0 <= i < j < |e| ensures e[i].stop < e[j].first {
        if j == |rs| {
          if i < |rs| - 1 {
            assert rs[i].stop < rs[|rs| - 1].first;
          }
        } else {
          assert e[j] == rs[j];
        }
      }
    } else if motion {
      forall i, j | 0 <= i < j < |e| ensures e[i].stop < e[j].first {
        assert e[i] == rs[i] && e[j].first == rs[j].first;
      }
    }
  }

  /** `p` with its last frame dropped agrees with `p` on every frame it keeps. */
  lemma SnocAgrees(m: seq<bool>, p: seq<bool>)
    requires |p| > 0 && m == p[..|p| - 1]
    ensures forall j :: 0 <= j < |m| ==> p[j] == m[j]
  {
  }

  lemma ExtendInMotion(rs: seq<Run>, p: seq<bool>)
    requires |p| > 0 && Bounded(rs, |p| - 1) && InMotion(rs, p[..|p| - 1])
    ensures InMotion(Extend(rs, |p| - 1, p[|p| - 1]), p)
  {
    var k := |p| - 1;
    var e := Extend(rs, k, p[k]);
    SnocAgrees(p[..k], p);
    forall i, j | 0 <= i < |e| && e[i].first <= j < e[i].stop ensures j < |p| && p[j] {
      ExtendBounded(rs, k, p[k]);
      if j < k {
        if p[k] && IsOpen(rs, k) && i == |rs| - 1 {
          assert rs[i].first <= j < rs[i].stop;
        } else if i < |rs| {
          assert e[i] == rs[i];
        }
      }
    }
  }

  lemma ExtendMaximal(rs: seq<Run>, p: seq<bool>)
    requires |p| > 0 && Bounded(rs, |p| - 1) && Ordered(rs) && Maximal(rs, p[..|p| - 1])
    requires (|p| > 1 && p[|p| - 2]) <==> IsOpen(rs, |p| - 1)
    ensures Maximal(Extend(rs, |p| - 1, p[|p| - 1]), p)
  {
    var k := |p| - 1;
    var e := Extend(rs, k, p[k]);
    SnocAgrees(p[..k], p);
    ExtendBounded(rs, k, p[k]);
    forall i | 0 <= i < |e|
      ensures (0 < e[i].first <= |p| ==> !p[e[i].first - 1]) && (e[i].stop < |p| ==> !p[e[i].stop])
    {
      if p[k] && IsOpen(rs, k) && i == |rs| - 1 {
        assert e[i].first == rs[i].first < k;
      } else if p[k] && !IsOpen(rs, k) && i == |rs| {
        assert e[i] == Run(k, k + 1);
      } else {
        assert e[i] == rs[i];
        assert rs[i].first <= k && rs[i].stop <= k;
      }
    }
  }

  lemma ExtendCovered(rs: seq<Run>, p: seq<bool>)
    requires |p| > 0 && Bounded(rs, |p| - 1) && Covered(rs, p[..|p| - 1])
    ensures Covered(Extend(rs, |p| - 1, p[|p| - 1]), p)
  {
    var k := |p| - 1;
    var e := Extend(rs, k, p[k]);
    SnocAgrees(p[..k], p);
    ExtendBounded(rs, k, p[k]);
    forall j | 0 <= j < |p| && p[j]
      ensures exists i :: 0 <= i < |e| && e[i].first <= j < e[i].stop
    {
      if j == k {
        assert e[|e| - 1].first <= j < e[|e| - 1].stop;
      } else {
        assert p[..k][j] == p[j];
        var i :| 0 <= i < |rs| && rs[i].first <= j < rs[i].stop;
        if p[k] && IsOpen(rs, k) && i == |rs| - 1 {
          assert e[i].first <= j < e[i].stop;
        } else {
          assert e[i] == rs[i];
        }
      }
    }
  }

  /** The runs are the maximal runs of motion frames: in order and separated, each all motion and
      bounded by still frames, and together covering every motion frame. */
  lemma {:induction false} RunsAreMaximalRuns(m: seq<bool>)
    ensures Ordered(Runs(m)) && InMotion(Runs(m), m) && Maximal(Runs(m), m) && Covered(Runs(m), m)
    decreases |m|
  {
    if m != [] {
      var k := |m| - 1;
      var ps := Runs(m[..k]);
      RunsAreMaximalRuns(m[..k]);
      assert Runs(m) == Extend(ps, k, m[k]);
      ExtendOrdered(ps, k, m[k]);
      ExtendInMotion(ps, m);
      assert k > 0 ==> m[..k][k - 1] == m[k - 1];
      ExtendMaximal(ps, m);
      ExtendCovered(ps, m);
    }
  }

  lemma RunsOrderedAt(m: seq<bool>, i: nat, j: nat)
    requires i < j < |Runs(m)|
    ensures Runs(m)[i].stop < Runs(m)[j].first
  {
    RunsAreMaximalRuns(m);
  }

  /** One run per idle-to-motion edge. */
  lemma {:induction false} RunsCount(m: seq<bool>)
    ensures |Runs(m)| == RisingEdges(m)
    decreases |m|
  {
    if m != [] {
      var k := |m| - 1;
      var p := m[..k];
      RunsCount(p);
      assert Runs(m) == Extend(Runs(p), k, m[k]);
      if k > 0 {
        assert p[k - 1] == m[k - 1];
      }
    }
  }

  /** Without any motion frame there is no segment. */
  lemma {:induction false} NoMotionNoSegments(m: seq<bool>, fps: real, totalFrames: int, round2: real -> real)
    requires fps != 0.0
    requires forall k :: 0 <= k < |m| ==> !m[k]
    ensures Segments(m, fps, totalFrames, round2) == []
    decreases |m|
  {
    if m != [] {
      var k := |m| - 1;
      var p := m[..k];
      assert forall j :: 0 <= j < |p| ==> p[j] == m[j];
      NoMotionNoSegments(p, fps, totalFrames, round2);
    }
  }

  lemma TimeMonotone(a: int, b: int, fps: real)
    requires fps > 0.0 && a < b
    ensures Time(a, fps) < Time(b, fps)
  {
    assert Time(b, fps) - Time(a, fps) == (b - a) as real / fps;
  }

  lemma TimeMonotoneWeak(a: int, b: int, fps: real)
    requires fps > 0.0 && a <= b
    ensures Time(a, fps) <= Time(b, fps)
  {
    if a < b {
      TimeMonotone(a, b, fps);
    }
  }

  /** The reported segments, under exact rounding and a positive frame rate: one per
      idle-to-motion edge; each starts at the time of its first motion frame and ends at the
      time of the still frame that closes it, or at the video's duration when motion lasts
      to the end. */
  lemma SegmentTimes(m: seq<bool>, fps: real, totalFrames: int, round2: real -> real)
    requires fps > 0.0
    requires forall r :: round2(r) == r
    ensures var s, rs := Segments(m, fps, totalFrames, round2), Runs(m);
      && |s| == |rs| == RisingEdges(m)
      && forall i :: 0 <= i < |s| ==>
           && s[i].start == Time(rs[i].first + 1, fps)
           && s[i].end == (if rs[i].stop == |m| then Time(totalFrames, fps) else Time(rs[i].stop + 1, fps))
  {
    RunsCount(m);
  }

  /** The segments are strictly increasing and pairwise disjoint: each ends before the next
      begins. */
  lemma SegmentsDisjoint(m: seq<bool>, fps: real, totalFrames: int, round2: real -> real)
    requires fps > 0.0
    requires forall r :: round2(r) == r
    ensures var s := Segments(m, fps, totalFrames, round2);
      forall i, j :: 0 <= i < j < |s| ==> s[i].end < s[j].start
  {
    var s, rs := Segments(m, fps, totalFrames, round2), Runs(m);
    assert |s| == |rs|;
    forall i, j | 0 <= i < j < |s| ensures s[i].end < s[j].start {
      RunsOrderedAt(m, i, j);
      SegmentAt(m, fps, totalFrames, round2, i);
      SegmentAt(m, fps, totalFrames, round2, j);
      TimeMonotone(rs[i].stop + 1, rs[j].first + 1, fps);
    }
  }

  /** Segment i under exact rounding, in terms of run i. */
  lemma SegmentAt(m: seq<bool>, fps: real, totalFrames: int, round2: real -> real, i: nat)
    requires fps != 0.0
    requires forall r :: round2(r) == r
    requires i < |Runs(m)|
    ensures var s, r := Segments(m, fps, totalFrames, round2), Runs(m)[i];
      && |s| == |Runs(m)|
      && r.first < r.stop <= |m|
      && s[i].start == Time(r.first + 1, fps)
      && s[i].end == (if r.stop == |m| then Time(totalFrames, fps) else Time(r.stop + 1, fps))
  {
  }

  /** A segment closed by a still frame has positive length; the one left open at the end has
      non-negative length when the reported frame count covers the frames read. */
  lemma SegmentsNonEmpty(m: seq<bool>, fps: real, totalFrames: int, round2: real -> real)
    requires fps > 0.0
    requires forall r :: round2(r) == r
    ensures var s, rs := Segments(m, fps, totalFrames, round2), Runs(m);
      && |s| == |rs|
      && (forall i :: 0 <= i < |s| && rs[i].stop < |m| ==> s[i].start < s[i].end)
      && (totalFrames >= |m| ==> forall i :: 0 <= i < |s| ==> s[i].start <= s[i].end)
  {
    var s, rs := Segments(m, fps, totalFrames, round2), Runs(m);
    forall i | 0 <= i < |rs|
      ensures rs[i].stop < |m| ==> s[i].start < s[i].end
      ensures totalFrames >= |m| ==> s[i].start <= s[i].end
    {
      SegmentLengthAt(m, fps, totalFrames, round2, i);
    }
  }

  lemma SegmentLengthAt(m: seq<bool>, fps: real, totalFrames: int, round2: real -> real, i: nat)
    requires fps > 0.0
    requires forall r :: round2(r) == r
    requires i < |Runs(m)|
    ensures var s, r := Segments(m, fps, totalFrames, round2), Runs(m)[i];
      && i < |s|
      && (r.stop < |m| ==> s[i].start < s[i].end)
      && (totalFrames >= |m| ==> s[i].start <= s[i].end)
  {
    var r := Runs(m)[i];
    SegmentAt(m, fps, totalFrames, round2, i);
    if r.stop == |m| {
      if totalFrames >= |m| {
        TimeMonotoneWeak(r.first + 1, totalFrames, fps);
      }
    } else {
      TimeMonotone(r.first + 1, r.stop + 1, fps);
    }
  }

  /** Only the last segment can be the one that motion leaves open at the end of the video. */
  lemma OnlyLastOpen(m: seq<bool>)
    ensures var rs := Runs(m);
      forall i :: 0 <= i < |rs| - 1 ==> rs[i].stop < |m|
  {
    var rs := Runs(m);
    forall i | 0 <= i < |rs| - 1 ensures rs[i].stop < |m| {
      RunsOrderedAt(m, i, i + 1);
      assert rs[i].stop < rs[i + 1].first < rs[i + 1].stop;
    }
  }
}
