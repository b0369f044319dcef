/** The compositing command as typed operations: trimmed inputs, clone-padding (tpad),
    timestamp shifts (setpts), overlays and the output mapping, and the serialiser that
    turns them into ffmpeg's command-line and filter-graph syntax. */
module FilterGraph {
  import opened Text

  /** A stream label in bracket notation. */
  datatype Label =
    | Stream(input: nat)      // [i:v], the video stream of input i
    | Processed(step: nat)    // [processed_overlay_i]
    | Composite(step: nat)    // [v_out_i]

  /** One filter of a per-stream chain. */
  datatype Filter =
    | Tpad(stopDuration: real)  // hold the last frame for stopDuration seconds
    | Setpts(shift: real)       // shift presentation time by `shift` seconds

  /** One `;`-separated part of the filter graph. */
  datatype Part =
    | Chain(source: Label, filters: seq<Filter>, sink: Label)
    | Overlay(base: Label, top: Label, x: int, y: int, from: real, until: real, sink: Label)

  /** One `-i` input declaration. */
  datatype Input =
    | Whole(file: string)                                  // -i file
    | Trimmed(start: real, duration: real, file: string)   // -ss start -t duration -i file

  /** Inputs, filter graph, the video stream mapped to the output, and the output file.
      The audio of input 0 is always mapped and copied. */
  datatype Command = Command(inputs: seq<Input>, graph: seq<Part>, video: Label, output: string)

  /** The labels a part reads. */
  function Consumes(p: Part): seq<Label> {
    match p
    case Chain(source, _, _) => [source]
    case Overlay(base, top, _, _, _, _, _) => [base, top]
  }

  /** Label `l` may be read by part k: it is a declared input stream or an earlier part's sink. */
  ghost predicate Available(g: seq<Part>, k: int, inputs: nat, l: Label) {
    (l.Stream? && l.input < inputs) || exists j :: 0 <= j < k && j < |g| && g[j].sink == l
  }

  /** A filter graph that ffmpeg can connect: every stream read is declared or produced earlier,
      no label is produced twice or shadows an input, every produced stream but the mapped one
      is read later, every declared input is used, and the mapped video is the last sink. */
  ghost predicate WellFormed(g: seq<Part>, inputs: nat, video: Label) {
    && (forall k :: 0 <= k < |g| ==> !g[k].sink.Stream?)
    && (forall j, k :: 0 <= j < k < |g| ==> g[j].sink != g[k].sink)
    && (forall k, l :: 0 <= k < |g| && l in Consumes(g[k]) ==> Available(g, k, inputs, l))
    && (forall j :: 0 <= j < |g| - 1 ==> exists k :: j < k < |g| && g[j].sink in Consumes(g[k]))
    && (forall i :: 0 <= i < inputs ==>
          Stream(i) == video || exists k :: 0 <= k < |g| && Stream(i) in Consumes(g[k]))
    && video == (if |g| == 0 then Stream(0) else g[|g| - 1].sink)
  }

  // ---- Serialisation. `num` is Python's formatting of a float in an f-string. ----

  function LabelText(l: Label): string {
    match l
    case Stream(i) => "[" + Digits(i) + ":v]"
    case Processed(i) => "[processed_overlay_" + Digits(i) + "]"
    case Composite(i) => "[v_out_" + Digits(i) + "]"
  }

  function FilterText(f: Filter, num: real -> string): string {
    match f
    case Tpad(d) => "tpad=stop_mode=clone:stop_duration=" + num(d)
    case Setpts(s) => "setpts=PTS+" + num(s) + "/TB"
  }

  function PartText(p: Part, num: real -> string): string {
    match p
    case Chain(source, filters, sink) =>
      LabelText(source)
      + Join(seq(|filters|, i requires 0 <= i < |filters| => FilterText(filters[i], num)), ",")
      + LabelText(sink)
    case Overlay(base, top, x, y, from, until, sink) =>
      LabelText(base) + LabelText(top)
      + "overlay=" + IntText(x) + ":" + IntText(y)
      + ":enable='between(t," + num(from) + "," + num(until) + ")'"
      + LabelText(sink)
  }

  function GraphText(g: seq<Part>, num: real -> string): string {
    Join(seq(|g|, i requires 0 <= i < |g| => PartText(g[i], num)), ";")
  }

  function InputText(input: Input, num: real -> string): string {
    match input
    case Whole(file) => "-i " + file
    case Trimmed(start, duration, file) => "-ss " + num(start) + " -t " + num(duration) + " -i " + file
  }

  /** The command line: the program, the inputs, the filter graph, the mapped video and the
      audio copy into the output file. */
  function CommandText(c: Command, num: real -> string): (r: string)
    ensures "ffmpeg.exe " <= r
    ensures EndsWith(r, " -map 0:a? -c:a copy -y " + c.output)
  {
    var inputs := Join(seq(|c.inputs|, i requires 0 <= i < |c.inputs| => InputText(c.inputs[i], num)), " ");
    var middle := inputs + " -filter_complex \"" + GraphText(c.graph, num) + "\""
                  + " -map \"" + LabelText(c.video) + "\"";
    var tail := " -map 0:a? -c:a copy -y " + c.output;
    var r := "ffmpeg.exe " + (middle + tail);
    assert r == ("ffmpeg.exe " + middle) + tail;
    r
  }

  lemma LabelTextAvoidsSemicolon(l: Label)
    ensures ';' !in LabelText(l)
  {
    var d := Digits(match l case Stream(i) => i case Processed(i) => i case Composite(i) => i);
    assert ';' !in d;
  }

  lemma FilterTextAvoidsSemicolon(f: Filter, num: real -> string)
    requires forall r :: ';' !in num(r)
    ensures ';' !in FilterText(f, num)
  {
    match f
    case Tpad(d) =>
      assert ';' !in num(d);
    case Setpts(t) =>
      assert ';' !in num(t);
  }

  lemma ChainTextAvoidsSemicolon(filters: seq<Filter>, num: real -> string)
    requires forall r :: ';' !in num(r)
    ensures ';' !in Join(seq(|filters|, i requires 0 <= i < |filters| => FilterText(filters[i], num)), ",")
  {
    var texts := seq(|filters|, i requires 0 <= i < |filters| => FilterText(filters[i], num));
    forall i | 0 <= i < |texts| ensures ';' !in texts[i] {
      FilterTextAvoidsSemicolon(filters[i], num);
    }
    JoinAvoids(texts, ",", ';');
  }

  lemma OverlayTextAvoidsSemicolon(x: int, y: int, from: real, until: real, num: real -> string)
    requires forall r :: ';' !in num(r)
    ensures ';' !in "overlay=" + IntText(x) + ":" + IntText(y)
                    + ":enable='between(t," + num(from) + "," + num(until) + ")'"
  {
    assert ';' !in IntText(x) && ';' !in IntText(y);
    assert ';' !in num(from) && ';' !in num(until);
  }

  /** No part of the graph contains `;` as long as numbers are never formatted with one. */
  lemma PartTextAvoidsSemicolon(p: Part, num: real -> string)
    requires forall r :: ';' !in num(r)
    ensures ';' !in PartText(p, num)
  {
    match p
    case Chain(source, filters, sink) =>
      LabelTextAvoidsSemicolon(source);
      LabelTextAvoidsSemicolon(sink);
      ChainTextAvoidsSemicolon(filters, num);
    case Overlay(base, top, x, y, from, until, sink) =>
      LabelTextAvoidsSemicolon(base);
      LabelTextAvoidsSemicolon(top);
      LabelTextAvoidsSemicolon(sink);
      OverlayTextAvoidsSemicolon(x, y, from, until, num);
  }

  /** The serialised filter graph of n parts holds exactly n - 1 separators, so splitting it
      at `;` gives back one piece per part. */
  lemma {:induction false} GraphTextSeparators(g: seq<Part>, num: real -> string)
    requires forall r :: ';' !in num(r)
    ensures |g| == 0 ==> GraphText(g, num) == ""
    ensures |g| > 0 ==> Count(GraphText(g, num), ';') == |g| - 1
  {
    if |g| > 0 {
      var texts := seq(|g|, i requires 0 <= i < |g| => PartText(g[i], num));
      forall i | 0 <= i < |texts| ensures ';' !in texts[i] {
        PartTextAvoidsSemicolon(g[i], num);
      }
      JoinSeparatorCount(texts, ';');
    }
  }
}
