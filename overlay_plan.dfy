/** The overlay planner: from the per-move duration and the move timestamps of the export
    manifest it derives the overlay windows (tiled from 0 in the rendered animation), the
    background windows (between consecutive timestamps, closed by a fixed end time) and the
    overlay position. */
module OverlayPlan {
  import opened Wrappers
  import opened FilterGraph
  import opened OverlayBuilder

  /** The manifest fields the planner reads; None stands for a missing key. */
  datatype ExportData = ExportData(timePerMove: Option<real>, timestamps: Option<seq<real>>,
                                   xOffset: Option<int>, yOffset: Option<int>)

  /** Paired overlay and background windows and the [x, y] offset list. */
  datatype Plan = Plan(overlaySegs: seq<Segment>, bgSegs: seq<Segment>, xyOffset: seq<int>)

  const DefaultTimePerMove: real := 0.2

  /** The hard-coded time that closes the last background window. */
  const EndTime: real := 7.0

  /** The plan, or None when there are no timestamps. `round3` is rounding to three decimals. */
  function ProcessOverlayData(data: ExportData, round3: real -> real): (r: Option<Plan>)
    ensures r.None? <==> |Timestamps(data)| == 0
    ensures r.Some? ==> |r.value.overlaySegs| == |r.value.bgSegs| && |r.value.xyOffset| == 2
  {
    var tpm := GetOr(data.timePerMove, DefaultTimePerMove);
    var timestamps := GetOr(data.timestamps, []);
    if |timestamps| == 0 then None
    else
      Some(Plan(OverlaySegments(|timestamps|, tpm, round3),
                BackgroundSegments(timestamps, tpm, round3),
                [GetOr(data.xOffset, 0), GetOr(data.yOffset, 0)]))
  }

  /** Window i of the rendered animation is [i * tpm, (i + 1) * tpm], each bound rounded. */
  function OverlaySegments(n: nat, tpm: real, round3: real -> real): seq<Segment> {
    seq(n, i => Segment(round3(MoveTime(i, tpm)), round3(MoveTime(i + 1, tpm))))
  }

  /** The time at which move i starts in the rendered animation. */
  function MoveTime(i: int, tpm: real): real {
    i as real * tpm
  }

  lemma MoveTimeStep(i: int, tpm: real)
    ensures MoveTime(i + 1, tpm) == MoveTime(i, tpm) + tpm
  {
  }

  /** Window j runs from one move before timestamp j to timestamp j + 1 of the timestamps
      extended with the end time; the first start is then moved forward by one move again. */
  function BackgroundSegments(timestamps: seq<real>, tpm: real, round3: real -> real): seq<Segment>
    requires |timestamps| > 0
  {
    var n := |timestamps|;
    // a copy of the timestamps with the end time appended; the caller's list is a value
    var extended := timestamps + [EndTime];
    var bgSegs := seq(n, j requires 0 <= j < n => Segment(round3(extended[j] - tpm), extended[j + 1]));
    // padding for the initial position
    bgSegs[0 := Segment(round3(bgSegs[0].start + tpm), bgSegs[0].end)]
  }

  function TimePerMove(data: ExportData): real {
    GetOr(data.timePerMove, DefaultTimePerMove)
  }

  function Timestamps(data: ExportData): seq<real> {
    GetOr(data.timestamps, [])
  }

  /** A plan exists exactly when there is at least one timestamp; it then has one overlay
      window and one background window per timestamp and the offset [x, y] (0 by default). */
  lemma PlanShape(data: ExportData, round3: real -> real)
    ensures var r := ProcessOverlayData(data, round3);
      && (r.None? <==> |Timestamps(data)| == 0)
      && (r.Some? ==>
            && |r.value.overlaySegs| == |Timestamps(data)|
            && |r.value.bgSegs| == |Timestamps(data)|
            && r.value.xyOffset == [GetOr(data.xOffset, 0), GetOr(data.yOffset, 0)])
  {
  }

  /** Overlay windows: window i is [i * tpm, (i + 1) * tpm] (each bound rounded), and each
      window ends where the next begins, whatever the rounding. */
  lemma OverlayTiling(data: ExportData, round3: real -> real)
    requires ProcessOverlayData(data, round3).Some?
    ensures var p := ProcessOverlayData(data, round3).value;
      var tpm := TimePerMove(data);
      && |p.overlaySegs| == |Timestamps(data)|
      && (forall i {:trigger p.overlaySegs[i]} :: 0 <= i < |p.overlaySegs| ==>
            p.overlaySegs[i] == Segment(round3(MoveTime(i, tpm)), round3(MoveTime(i + 1, tpm))))
      && (forall i :: 0 <= i < |p.overlaySegs| - 1 ==> p.overlaySegs[i].end == p.overlaySegs[i + 1].start)
  {
    var p := ProcessOverlayData(data, round3).value;
    var tpm := TimePerMove(data);
    assert p.overlaySegs == OverlaySegments(|Timestamps(data)|, tpm, round3);
  }

  /** Background windows: window k (k >= 1) starts one move duration before timestamp k and
      ends at timestamp k + 1, the last one at the end time 7; window 0 has its start
      moved forward again by one move duration. */
  lemma BackgroundWindows(data: ExportData, round3: real -> real)
    requires ProcessOverlayData(data, round3).Some?
    ensures var p := ProcessOverlayData(data, round3).value;
      var tpm, ts := TimePerMove(data), Timestamps(data);
      var n := |ts|;
      && |p.bgSegs| == n
      && p.bgSegs[0].start == round3(round3(ts[0] - tpm) + tpm)
      && (forall k {:trigger p.bgSegs[k]} :: 1 <= k < n ==> p.bgSegs[k].start == round3(ts[k] - tpm))
      && (forall k {:trigger p.bgSegs[k]} :: 0 <= k < n - 1 ==> p.bgSegs[k].end == ts[k + 1])
      && p.bgSegs[n - 1].end == EndTime
  {
  }

  /** With exact rounding the first window is patched back to start at the first timestamp. */
  lemma FirstWindowStart(data: ExportData, round3: real -> real)
    requires ProcessOverlayData(data, round3).Some?
    requires var tpm, ts := TimePerMove(data), Timestamps(data);
      round3(ts[0] - tpm) == ts[0] - tpm && round3(ts[0]) == ts[0]
    ensures ProcessOverlayData(data, round3).value.bgSegs[0].start == Timestamps(data)[0]
  {
  }

  /** The freeze the builder pads with, under exact rounding: for window k >= 1 it is the gap
      between timestamp k and the next one (or the end time); for window 0 that gap less one
      move duration. */
  lemma PlannedFreeze(data: ExportData, round3: real -> real, k: nat)
    requires forall r :: round3(r) == r
    requires ProcessOverlayData(data, round3).Some?
    requires k < |Timestamps(data)|
    ensures var p := ProcessOverlayData(data, round3).value;
      var tpm, ts := TimePerMove(data), Timestamps(data);
      var next := if k + 1 < |ts| then ts[k + 1] else EndTime;
      && k < |p.overlaySegs| && k < |p.bgSegs|
      && Duration(p.overlaySegs[k]) == tpm
      && FreezeDuration(p.overlaySegs[k], p.bgSegs[k]) == (if k == 0 then next - ts[0] - tpm else next - ts[k])
  {
    var p := ProcessOverlayData(data, round3).value;
    var tpm := TimePerMove(data);
    assert p.overlaySegs[k] == Segment(MoveTime(k, tpm), MoveTime(k + 1, tpm));
    MoveTimeStep(k, tpm);
  }

  /** Under exact rounding, with a non-negative move duration and strictly increasing
      timestamps that stay below the end time, every background window is non-empty. */
  lemma BackgroundWindowsNonEmpty(data: ExportData, round3: real -> real)
    requires forall r :: round3(r) == r
    requires TimePerMove(data) >= 0.0
    requires forall i, j :: 0 <= i < j < |Timestamps(data)| ==> Timestamps(data)[i] < Timestamps(data)[j]
    requires forall i :: 0 <= i < |Timestamps(data)| ==> Timestamps(data)[i] < EndTime
    requires ProcessOverlayData(data, round3).Some?
    ensures var p := ProcessOverlayData(data, round3).value;
      forall k :: 0 <= k < |p.bgSegs| ==> p.bgSegs[k].start < p.bgSegs[k].end
  {
    BackgroundWindows(data, round3);
  }

  /** A plan always passes the builder's validation: the two window lists have the same
      length and the offset is a two-element list, which every overlay step uses. */
  lemma PlanIsBuildable(data: ExportData, round3: real -> real,
                        backgroundFile: string, overlayFile: string, outputFile: string)
    requires ProcessOverlayData(data, round3).Some?
    ensures var p := ProcessOverlayData(data, round3).value;
      var r := OverlayCommand(p.overlaySegs, p.bgSegs, ListOrTuple(p.xyOffset),
                              backgroundFile, overlayFile, outputFile);
      && r.Ok?
      && |r.value.graph| == 2 * |Timestamps(data)|
      && forall k :: 0 <= k < |Timestamps(data)| ==>
           r.value.graph[2 * k + 1].Overlay?
           && r.value.graph[2 * k + 1].x == GetOr(data.xOffset, 0)
           && r.value.graph[2 * k + 1].y == GetOr(data.yOffset, 0)
  {
    var p := ProcessOverlayData(data, round3).value;
    Chaining(p.overlaySegs, p.bgSegs, ListOrTuple(p.xyOffset), backgroundFile, overlayFile, outputFile);
  }

  /** Three moves of 0.2 s at 1, 2 and 3 s, under exact rounding: the overlay windows tile
      [0, 0.6] and the first background window starts at the first move. */
  lemma PlanExample(round3: real -> real)
    requires forall r :: round3(r) == r
    ensures var data := ExportData(Some(0.2), Some([1.0, 2.0, 3.0]), None, None);
      ProcessOverlayData(data, round3) == Some(Plan(
        [Segment(0.0, 0.2), Segment(0.2, 0.4), Segment(0.4, 0.6)],
        [Segment(1.0, 2.0), Segment(1.8, 3.0), Segment(2.8, 7.0)],
        [0, 0]))
  {
    var data := ExportData(Some(0.2), Some([1.0, 2.0, 3.0]), None, None);
    var p := ProcessOverlayData(data, round3).value;
    assert p.overlaySegs == [Segment(0.0, 0.2), Segment(0.2, 0.4), Segment(0.4, 0.6)];
    assert p.bgSegs == [Segment(1.0, 2.0), Segment(1.8, 3.0), Segment(2.8, 7.0)];
  }
}
