/** The multi-overlay command builder: N paired (overlay window, background window) segments
    and one fixed (x, y) position become one compositing command whose filter graph pads
    each trimmed overlay input, shifts it to its background window and composites it onto
    the running result. */
module OverlayBuilder {
  import opened Wrappers
  import opened Text
  import opened FilterGraph

  /** A [start, end] window in seconds. */
  datatype Segment = Segment(start: real, end: real)

  /** The `xy_offset` argument: absent (None), a list or tuple, or any other value. */
  datatype OffsetArgument = Absent | ListOrTuple(items: seq<int>) | OtherValue

  /** The two ValueErrors the builder raises. */
  datatype BuildError = SegmentCountMismatch | MalformedOffset

  /** Freezes shorter than this are treated as floating-point noise and not padded. */
  const FreezeEpsilon: real := 0.001

  /** The file names the builder uses when the caller gives none. */
  const DefaultBackgroundFile: string := "background.mp4"
  const DefaultOverlayFile: string := "chess-animation.mp4"
  const DefaultOutputFile: string := "output.mp4"

  function Duration(s: Segment): real {
    s.end - s.start
  }

  /** How much longer the background window is than the overlay window. */
  function FreezeDuration(ov: Segment, bg: Segment): real {
    Duration(bg) - Duration(ov)
  }

  /** The per-overlay chain: an optional clone-pad, then the shift to the window start. */
  function StepFilters(ov: Segment, bg: Segment): seq<Filter> {
    (if FreezeDuration(ov, bg) > FreezeEpsilon then [Tpad(FreezeDuration(ov, bg))] else [])
    + [Setpts(bg.start)]
  }

  /** One trimmed input of the overlay file per overlay segment. */
  function OverlayInputs(ovs: seq<Segment>, file: string): seq<Input>
    decreases |ovs|
  {
    if ovs == [] then []
    else [Trimmed(ovs[0].start, Duration(ovs[0]), file)] + OverlayInputs(ovs[1..], file)
  }

  /** The filter-graph parts from step i onward, threading the running composite label. */
  function Steps(ovs: seq<Segment>, bgs: seq<Segment>, x: int, y: int, last: Label, i: nat): seq<Part>
    requires |ovs| == |bgs|
    decreases |ovs|
  {
    if ovs == [] then []
    else
      [ Chain(Stream(i), StepFilters(ovs[0], bgs[0]), Processed(i)),
        Overlay(last, Processed(i), x, y, bgs[0].start, bgs[0].end, Composite(i)) ]
      + Steps(ovs[1..], bgs[1..], x, y, Composite(i), i + 1)
  }

  /** The running composite after n overlay steps. */
  function LastLabel(n: nat): Label {
    if n == 0 then Stream(0) else Composite(n)
  }

  /** The offset check: None defaults to (0, 0); anything but a 2-element list or tuple fails. */
  function Position(offset: OffsetArgument): Result<(int, int), BuildError> {
    match offset
    case Absent => Ok((0, 0))
    case ListOrTuple(items) => if |items| == 2 then Ok((items[0], items[1])) else Err(MalformedOffset)
    case OtherValue => Err(MalformedOffset)
  }

  /** The command the builder produces, or the error it raises. */
  function OverlayCommand(ovs: seq<Segment>, bgs: seq<Segment>, offset: OffsetArgument := Absent,
                          backgroundFile: string := DefaultBackgroundFile,
                          overlayFile: string := DefaultOverlayFile,
                          outputFile: string := DefaultOutputFile)
    : (r: Result<Command, BuildError>)
    ensures r.Err? <==> |ovs| != |bgs| || Position(offset).Err?
    ensures r.Ok? ==> r.value.output == outputFile
  {
    if |ovs| != |bgs| then Err(SegmentCountMismatch)
    else
      match Position(offset)
      case Err(e) => Err(e)
      case Ok((x, y)) =>
        Ok(Command([Whole(backgroundFile)] + OverlayInputs(ovs, overlayFile),
                   Steps(ovs, bgs, x, y, Stream(0), 1),
                   LastLabel(|ovs|),
                   outputFile))
  }

  /** When both loops have run to the end, their results make up the specified command. */
  lemma Finish(ovs: seq<Segment>, bgs: seq<Segment>, offset: OffsetArgument,
               backgroundFile: string, overlayFile: string, outputFile: string, x: int, y: int,
               inputs: seq<Input>, parts: seq<Part>, last: Label)
    requires |ovs| == |bgs| && Position(offset) == Ok((x, y))
    requires inputs + OverlayInputs(ovs[|ovs|..], overlayFile)
             == [Whole(backgroundFile)] + OverlayInputs(ovs, overlayFile)
    requires parts + Steps(ovs[|ovs|..], bgs[|ovs|..], x, y, last, |ovs| + 1)
             == Steps(ovs, bgs, x, y, Stream(0), 1)
    requires last == LastLabel(|ovs|)
    ensures OverlayCommand(ovs, bgs, offset, backgroundFile, overlayFile, outputFile)
            == Ok(Command(inputs, parts, last, outputFile))
  {
    assert ovs[|ovs|..] == [] && bgs[|ovs|..] == [];
    assert inputs + [] == inputs && parts + [] == parts;
  }

  /** One turn of the input loop keeps the inputs built so far plus those still to come equal
      to the full input list. */
  lemma InputsStep(inputs: seq<Input>, ovs: seq<Segment>, k: nat, file: string, whole: seq<Input>)
    requires k < |ovs|
    requires inputs + OverlayInputs(ovs[k..], file) == whole
    ensures (inputs + [Trimmed(ovs[k].start, ovs[k].end - ovs[k].start, file)])
            + OverlayInputs(ovs[k + 1..], file) == whole
  {
    assert ovs[k..][1..] == ovs[k + 1..];
  }

  /** One turn of the graph loop: the chain and the overlay of step i, followed by the steps
      after it, are the steps from i on. */
  lemma StepsStep(parts: seq<Part>, ovs: seq<Segment>, bgs: seq<Segment>, x: int, y: int,
                  last: Label, i: nat, filters: seq<Filter>, whole: seq<Part>)
    requires |ovs| == |bgs| && 1 <= i <= |ovs|
    requires filters == StepFilters(ovs[i - 1], bgs[i - 1])
    requires parts + Steps(ovs[i - 1..], bgs[i - 1..], x, y, last, i) == whole
    ensures (parts + [Chain(Stream(i), filters, Processed(i))]
                   + [Overlay(last, Processed(i), x, y, bgs[i - 1].start, bgs[i - 1].end, Composite(i))])
            + Steps(ovs[i..], bgs[i..], x, y, Composite(i), i + 1) == whole
  {
    assert ovs[i - 1..][1..] == ovs[i..] && bgs[i - 1..][1..] == bgs[i..];
    var chain := Chain(Stream(i), filters, Processed(i));
    var overlay := Overlay(last, Processed(i), x, y, bgs[i - 1].start, bgs[i - 1].end, Composite(i));
    var rest := Steps(ovs[i..], bgs[i..], x, y, Composite(i), i + 1);
    assert Steps(ovs[i - 1..], bgs[i - 1..], x, y, last, i) == [chain, overlay] + rest;
    assert parts + [chain] + [overlay] + rest == parts + ([chain, overlay] + rest);
  }

  /** The filter list of one step's chain, built as the loop body builds it: a clone-pad when
      the background window outlasts the overlay window by more than the epsilon, then the
      shift to the window start. */
  method BuildStepFilters(ov: Segment, bg: Segment) returns (filters: seq<Filter>)
    ensures filters == StepFilters(ov, bg)
  {
    filters := [];
    var freeze := (bg.end - bg.start) - (ov.end - ov.start);
    if freeze > FreezeEpsilon {
      filters := filters + [Tpad(freeze)];
    }
    filters := filters + [Setpts(bg.start)];
  }

  /** The builder as the Python function runs it: validation, a loop appending input
      declarations, and a loop appending filter-graph parts while reassigning the last stream
      label. */
  method BuildOverlayCommand(ovs: seq<Segment>, bgs: seq<Segment>, offset: OffsetArgument := Absent,
                             backgroundFile: string := DefaultBackgroundFile,
                             overlayFile: string := DefaultOverlayFile,
                             outputFile: string := DefaultOutputFile)
    returns (r: Result<Command, BuildError>)
    ensures r == OverlayCommand(ovs, bgs, offset, backgroundFile, overlayFile, outputFile)
  {
    if |ovs| != |bgs| {
      return Err(SegmentCountMismatch);
    }
    var xy := offset;
    if xy.Absent? {
      xy := ListOrTuple([0, 0]);
    }
    if !xy.ListOrTuple? || |xy.items| != 2 {
      return Err(MalformedOffset);
    }
    var x, y := xy.items[0], xy.items[1];
    assert Position(offset) == Ok((x, y));

    var inputs := [Whole(backgroundFile)];
    ghost var allInputs := [Whole(backgroundFile)] + OverlayInputs(ovs, overlayFile);
    var k := 0;
    while k < |ovs|
      invariant 0 <= k <= |ovs|
      invariant inputs + OverlayInputs(ovs[k..], overlayFile) == allInputs
    {
      var seg := ovs[k];
      var input := Trimmed(seg.start, seg.end - seg.start, overlayFile);
      InputsStep(inputs, ovs, k, overlayFile, allInputs);
      inputs := inputs + [input];
      k := k + 1;
    }

    var parts: seq<Part> := [];
    ghost var allParts := Steps(ovs, bgs, x, y, Stream(0), 1);
    var last := Stream(0);
    var i := 1;
    while i <= |ovs|
      invariant 1 <= i <= |ovs| + 1
      invariant last == LastLabel(i - 1)
      invariant parts + Steps(ovs[i - 1..], bgs[i - 1..], x, y, last, i) == allParts
    {
      var ov, bg := ovs[i - 1], bgs[i - 1];
      var subFilters := BuildStepFilters(ov, bg);
      var chain := Chain(Stream(i), subFilters, Processed(i));
      var overlay := Overlay(last, Processed(i), x, y, bg.start, bg.end, Composite(i));
      StepsStep(parts, ovs, bgs, x, y, last, i, subFilters, allParts);
      parts := parts + [chain];
      parts := parts + [overlay];
      last := Composite(i);
      i := i + 1;
    }
    assert Position(offset) == Ok((x, y));
    Finish(ovs, bgs, offset, backgroundFile, overlayFile, outputFile, x, y, inputs, parts, last);
    r := Ok(Command(inputs, parts, last, outputFile));
  }

  /** The command string the builder returns. */
  function OverlayCommandLine(ovs: seq<Segment>, bgs: seq<Segment>, num: real -> string,
                              offset: OffsetArgument := Absent,
                              backgroundFile: string := DefaultBackgroundFile,
                              overlayFile: string := DefaultOverlayFile,
                              outputFile: string := DefaultOutputFile)
    : (r: Result<string, BuildError>)
    ensures r.Err? <==> OverlayCommand(ovs, bgs, offset, backgroundFile, overlayFile, outputFile).Err?
    ensures r.Ok? ==> "ffmpeg.exe " <= r.value && EndsWith(r.value, " -map 0:a? -c:a copy -y " + outputFile)
  {
    match OverlayCommand(ovs, bgs, offset, backgroundFile, overlayFile, outputFile)
    case Ok(c) => Ok(CommandText(c, num))
    case Err(e) => Err(e)
  }

  // ---- What the builder promises ----

  /** Validation: a count mismatch is reported first; then the offset must be absent or a
      list/tuple of exactly two elements; otherwise a command is built. */
  lemma Validation(ovs: seq<Segment>, bgs: seq<Segment>, offset: OffsetArgument,
                   backgroundFile: string, overlayFile: string, outputFile: string)
    ensures var r := OverlayCommand(ovs, bgs, offset, backgroundFile, overlayFile, outputFile);
      && (|ovs| != |bgs| ==> r == Err(SegmentCountMismatch))
      && (|ovs| == |bgs| ==>
            (r == Err(MalformedOffset) <==>
               offset.OtherValue? || (offset.ListOrTuple? && |offset.items| != 2)))
      && (r.Ok? <==> |ovs| == |bgs| && (offset.Absent? || (offset.ListOrTuple? && |offset.items| == 2)))
  {
  }

  lemma {:induction false} OverlayInputsAt(ovs: seq<Segment>, file: string)
    ensures |OverlayInputs(ovs, file)| == |ovs|
    ensures forall k :: 0 <= k < |ovs| ==>
      OverlayInputs(ovs, file)[k] == Trimmed(ovs[k].start, ovs[k].end - ovs[k].start, file)
    decreases |ovs|
  {
    if ovs != [] {
      OverlayInputsAt(ovs[1..], file);
    }
  }

  /** Inputs: the background first, then one trimmed overlay input per segment, in order,
      each starting at the segment start and lasting end - start. */
  lemma InputsLayout(ovs: seq<Segment>, bgs: seq<Segment>, offset: OffsetArgument,
                     backgroundFile: string, overlayFile: string, outputFile: string)
    requires OverlayCommand(ovs, bgs, offset, backgroundFile, overlayFile, outputFile).Ok?
    ensures var c := OverlayCommand(ovs, bgs, offset, backgroundFile, overlayFile, outputFile).value;
      && |c.inputs| == |ovs| + 1
      && c.inputs[0] == Whole(backgroundFile)
      && forall k :: 0 <= k < |ovs| ==>
           c.inputs[k + 1] == Trimmed(ovs[k].start, ovs[k].end - ovs[k].start, overlayFile)
  {
    OverlayInputsAt(ovs, overlayFile);
  }

  lemma {:induction false} StepsAt(ovs: seq<Segment>, bgs: seq<Segment>, x: int, y: int, last: Label, i: nat)
    requires |ovs| == |bgs|
    ensures var g := Steps(ovs, bgs, x, y, last, i);
      && |g| == 2 * |ovs|
      && forall k :: 0 <= k < |ovs| ==>
           && g[2 * k] == Chain(Stream(i + k), StepFilters(ovs[k], bgs[k]), Processed(i + k))
           && g[2 * k + 1] == Overlay(if k == 0 then last else Composite(i + k - 1), Processed(i + k),
                                      x, y, bgs[k].start, bgs[k].end, Composite(i + k))
    decreases |ovs|
  {
    if ovs != [] {
      StepsAt(ovs[1..], bgs[1..], x, y, Composite(i), i + 1);
      var g := Steps(ovs, bgs, x, y, last, i);
      var t := Steps(ovs[1..], bgs[1..], x, y, Composite(i), i + 1);
      assert g == [g[0], g[1]] + t;
      forall k | 1 <= k < |ovs|
        ensures g[2 * k] == Chain(Stream(i + k), StepFilters(ovs[k], bgs[k]), Processed(i + k))
        ensures g[2 * k + 1] == Overlay(Composite(i + k - 1), Processed(i + k),
                                        x, y, bgs[k].start, bgs[k].end, Composite(i + k))
      {
        assert g[2 * k] == t[2 * (k - 1)];
        assert g[2 * k + 1] == t[2 * (k - 1) + 1];
      }
    }
  }

  /** Stream chaining: 2N parts; part 2k turns input k+1 into [processed_overlay_{k+1}], part
      2k+1 overlays it onto [0:v] (k = 0) or [v_out_k] and yields [v_out_{k+1}] at the fixed
      position, enabled during the paired background window; the final label is mapped. */
  lemma Chaining(ovs: seq<Segment>, bgs: seq<Segment>, offset: OffsetArgument,
                 backgroundFile: string, overlayFile: string, outputFile: string)
    requires OverlayCommand(ovs, bgs, offset, backgroundFile, overlayFile, outputFile).Ok?
    ensures var c := OverlayCommand(ovs, bgs, offset, backgroundFile, overlayFile, outputFile).value;
      var (x, y) := if offset.Absent? then (0, 0) else (offset.items[0], offset.items[1]);
      && |c.graph| == 2 * |ovs|
      && c.video == (if |ovs| == 0 then Stream(0) else Composite(|ovs|))
      && forall k :: 0 <= k < |ovs| ==>
           && c.graph[2 * k] == Chain(Stream(k + 1), StepFilters(ovs[k], bgs[k]), Processed(k + 1))
           && c.graph[2 * k + 1] == Overlay(if k == 0 then Stream(0) else Composite(k), Processed(k + 1),
                                            x, y, bgs[k].start, bgs[k].end, Composite(k + 1))
  {
    var (x, y) := if offset.Absent? then (0, 0) else (offset.items[0], offset.items[1]);
    StepsAt(ovs, bgs, x, y, Stream(0), 1);
  }

  /** Freeze padding: step k's chain starts with a clone-pad exactly when the background window
      outlasts the overlay window by more than 0.001 s, the pad lasts exactly that difference,
      and the chain always ends with the one shift to the background window's start. */
  lemma FreezePadding(ovs: seq<Segment>, bgs: seq<Segment>, offset: OffsetArgument,
                      backgroundFile: string, overlayFile: string, outputFile: string, k: nat)
    requires OverlayCommand(ovs, bgs, offset, backgroundFile, overlayFile, outputFile).Ok?
    requires k < |ovs|
    ensures var c := OverlayCommand(ovs, bgs, offset, backgroundFile, overlayFile, outputFile).value;
      |c.graph| == 2 * |ovs| && c.graph[2 * k].Chain? &&
      var fs := c.graph[2 * k].filters;
      var freeze := (bgs[k].end - bgs[k].start) - (ovs[k].end - ovs[k].start);
      && 1 <= |fs| <= 2
      && ((exists f :: f in fs && f.Tpad?) <==> freeze > 0.001)
      && (forall f :: f in fs && f.Tpad? ==> f.stopDuration == freeze)
      && fs[|fs| - 1] == Setpts(bgs[k].start)
      && (forall j :: 0 <= j < |fs| - 1 ==> fs[j].Tpad?)
  {
    var (x, y) := if offset.Absent? then (0, 0) else (offset.items[0], offset.items[1]);
    StepsAt(ovs, bgs, x, y, Stream(0), 1);
    var fs := StepFilters(ovs[k], bgs[k]);
    if FreezeDuration(ovs[k], bgs[k]) > FreezeEpsilon {
      assert fs[0] in fs;
    }
  }

  /** The shape of the graph Steps builds for n overlays, label by label. */
  ghost predicate StepShape(g: seq<Part>, n: nat) {
    && |g| == 2 * n
    && forall a :: 0 <= a < n ==>
         && g[2 * a].sink == Processed(a + 1) && Consumes(g[2 * a]) == [Stream(a + 1)]
         && g[2 * a + 1].sink == Composite(a + 1)
         && Consumes(g[2 * a + 1]) == [LastLabel(a), Processed(a + 1)]
  }

  lemma StepsShape(ovs: seq<Segment>, bgs: seq<Segment>, x: int, y: int)
    requires |ovs| == |bgs|
    ensures StepShape(Steps(ovs, bgs, x, y, Stream(0), 1), |ovs|)
  {
    StepsAt(ovs, bgs, x, y, Stream(0), 1);
  }

  lemma ShapeSink(g: seq<Part>, n: nat, j: int)
    requires StepShape(g, n) && 0 <= j < |g|
    ensures g[j].sink == if j % 2 == 0 then Processed(j / 2 + 1) else Composite(j / 2 + 1)
  {
    var a := j / 2;
    assert j == 2 * a || j == 2 * a + 1;
  }

  lemma ShapeSinksFresh(g: seq<Part>, n: nat)
    requires StepShape(g, n)
    ensures forall k :: 0 <= k < |g| ==> !g[k].sink.Stream?
    ensures forall j, k :: 0 <= j < k < |g| ==> g[j].sink != g[k].sink
  {
    forall k | 0 <= k < |g| ensures !g[k].sink.Stream? {
      ShapeSink(g, n, k);
    }
    forall j, k | 0 <= j < k < |g| ensures g[j].sink != g[k].sink {
      ShapeSink(g, n, j);
      ShapeSink(g, n, k);
    }
  }

  lemma ShapeReadsAvailable(g: seq<Part>, n: nat)
    requires StepShape(g, n)
    ensures forall k, l :: 0 <= k < |g| && l in Consumes(g[k]) ==> Available(g, k, n + 1, l)
  {
    forall k, l | 0 <= k < |g| && l in Consumes(g[k]) ensures Available(g, k, n + 1, l) {
      var a := k / 2;
      if k == 2 * a {
        assert l == Stream(a + 1);
      } else {
        assert k == 2 * a + 1;
        if l == Processed(a + 1) {
          assert g[2 * a].sink == l;
        } else if a > 0 {
          assert g[2 * (a - 1) + 1].sink == l;
        }
      }
    }
  }

  lemma ShapeOutputsUsed(g: seq<Part>, n: nat)
    requires StepShape(g, n)
    ensures forall j :: 0 <= j < |g| - 1 ==> exists k :: j < k < |g| && g[j].sink in Consumes(g[k])
    ensures forall i :: 0 <= i < n + 1 ==>
      Stream(i) == LastLabel(n) || exists k :: 0 <= k < |g| && Stream(i) in Consumes(g[k])
    ensures LastLabel(n) == (if |g| == 0 then Stream(0) else g[|g| - 1].sink)
  {
    forall j | 0 <= j < |g| - 1 ensures exists k :: j < k < |g| && g[j].sink in Consumes(g[k]) {
      var a := j / 2;
      if j == 2 * a {
        assert g[j].sink in Consumes(g[2 * a + 1]);
      } else {
        assert j == 2 * a + 1 && a + 1 < n;
        assert g[j].sink in Consumes(g[2 * (a + 1) + 1]);
      }
    }
    forall i | 0 <= i < n + 1
      ensures Stream(i) == LastLabel(n) || exists k :: 0 <= k < |g| && Stream(i) in Consumes(g[k])
    {
      if i == 0 {
        if n > 0 { assert Stream(0) in Consumes(g[2 * 0 + 1]); }
      } else {
        assert Stream(i) in Consumes(g[2 * (i - 1)]);
      }
    }
    if n > 0 {
      assert g[|g| - 1] == g[2 * (n - 1) + 1];
    }
  }

  lemma ShapeWellFormed(g: seq<Part>, n: nat)
    requires StepShape(g, n)
    ensures WellFormed(g, n + 1, LastLabel(n))
  {
    ShapeSinksFresh(g, n);
    ShapeReadsAvailable(g, n);
    ShapeOutputsUsed(g, n);
  }

  /** The filter graph is one ffmpeg can connect (see WellFormed): every label read is
      declared or produced earlier, each produced once, every declared input used, and the
      mapped video is the last composite. */
  lemma GraphConnected(ovs: seq<Segment>, bgs: seq<Segment>, offset: OffsetArgument,
                       backgroundFile: string, overlayFile: string, outputFile: string)
    requires OverlayCommand(ovs, bgs, offset, backgroundFile, overlayFile, outputFile).Ok?
    ensures var c := OverlayCommand(ovs, bgs, offset, backgroundFile, overlayFile, outputFile).value;
      WellFormed(c.graph, |c.inputs|, c.video)
  {
    var c := OverlayCommand(ovs, bgs, offset, backgroundFile, overlayFile, outputFile).value;
    var n := |ovs|;
    assert StepShape(c.graph, n) by {
      var (x, y) := Position(offset).value;
      assert c.graph == Steps(ovs, bgs, x, y, Stream(0), 1);
      StepsShape(ovs, bgs, x, y);
    }
    assert |c.inputs| == n + 1 && c.video == LastLabel(n) by {
      OverlayInputsAt(ovs, overlayFile);
    }
    ShapeWellFormed(c.graph, n);
  }

  /** The serialised filter graph has exactly 2N `;`-separated parts (empty when N = 0),
      provided numbers are never formatted with a `;`. */
  lemma GraphSeparators(ovs: seq<Segment>, bgs: seq<Segment>, offset: OffsetArgument,
                        backgroundFile: string, overlayFile: string, outputFile: string,
                        num: real -> string)
    requires forall r :: ';' !in num(r)
    requires OverlayCommand(ovs, bgs, offset, backgroundFile, overlayFile, outputFile).Ok?
    ensures var c := OverlayCommand(ovs, bgs, offset, backgroundFile, overlayFile, outputFile).value;
      && (|ovs| == 0 ==> GraphText(c.graph, num) == "")
      && (|ovs| > 0 ==> Count(GraphText(c.graph, num), ';') == 2 * |ovs| - 1)
  {
    var c := OverlayCommand(ovs, bgs, offset, backgroundFile, overlayFile, outputFile).value;
    var (x, y) := if offset.Absent? then (0, 0) else (offset.items[0], offset.items[1]);
    StepsAt(ovs, bgs, x, y, Stream(0), 1);
    GraphTextSeparators(c.graph, num);
  }

  /** A 0.2 s overlay window paired with a 4 s background window starting at 1 s is padded by
      3.8 s and shifted to start at 1 s. */
  lemma FreezeExample()
    ensures StepFilters(Segment(0.2, 0.4), Segment(1.0, 5.0)) == [Tpad(3.8), Setpts(1.0)]
  {
  }

  /** Called with only the two segment lists, the builder uses the default files and the
      position (0, 0). */
  lemma DefaultArguments(ovs: seq<Segment>, bgs: seq<Segment>)
    requires |ovs| == |bgs|
    ensures var c := OverlayCommand(ovs, bgs);
      && c.Ok?
      && c.value.inputs[0] == Whole("background.mp4")
      && c.value.output == "output.mp4"
      && |c.value.inputs| == |ovs| + 1
      && (forall k :: 1 <= k <= |ovs| ==> c.value.inputs[k].file == "chess-animation.mp4")
      && |c.value.graph| == 2 * |ovs|
      && (forall k :: 0 <= k < |ovs| ==>
            (c.value.graph[2 * k + 1].Overlay? && c.value.graph[2 * k + 1].x == 0 && c.value.graph[2 * k + 1].y == 0))
  {
    var c := OverlayCommand(ovs, bgs).value;
    InputsLayout(ovs, bgs, Absent, DefaultBackgroundFile, DefaultOverlayFile, DefaultOutputFile);
    Chaining(ovs, bgs, Absent, DefaultBackgroundFile, DefaultOverlayFile, DefaultOutputFile);
    forall k | 1 <= k <= |ovs| ensures c.inputs[k].file == "chess-animation.mp4" {
      assert c.inputs[(k - 1) + 1] == Trimmed(ovs[k - 1].start, ovs[k - 1].end - ovs[k - 1].start, DefaultOverlayFile);
    }
  }
}
