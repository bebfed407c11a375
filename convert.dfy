/** One source image to its resized variants: the body of `optimize_one`.
    For every target width the script writes a JPEG with `sips`, then a WebP
    (`cwebp`) and an AVIF (`avifenc`) from that JPEG, skipping work whose output
    is already newer than its input. */
module Convert {
  import opened Common
  import opened Files
  import opened Errors
  import opened Widths
  import opened PixelWidth

  /** What the external programs do in one run. `reports` is what
      `sips -g pixelWidth` prints for each source image name (a name without a
      report is one `sips` fails on); `failing` holds the outputs whose encoder
      exits with an error. */
  datatype Tools = Tools(reports: map<string, string>, failing: set<Path>)

  /** Where a run stands: the disk, the counts so far, and the error that
      aborted it, if any. */
  datatype Tally = Tally(disk: Disk, generated: nat, skipped: nat, error: Option<Error>)

  /** The `(generated, skipped)` pair a call returns. */
  datatype Counts = Counts(generated: nat, skipped: nat)

  /** A finished tally as the caller sees it: the counts, or the exception. */
  function Outcome(t: Tally): (r: Result<Counts, Error>)
    ensures r.Ok? <==> t.error.None?
    ensures r.Ok? ==> r.value.generated == t.generated && r.value.skipped == t.skipped
  {
    match t.error
    case None => Ok(Counts(t.generated, t.skipped))
    case Some(e) => Err(e)
  }

  /** The three outputs `<stem>-<w>.jpg`, `.webp` and `.avif` for one width. */
  function Outputs(stem: string, w: int): (outs: seq<Path>)
    ensures |outs| == 3 && outs[0].Variant? && outs[1].Variant? && outs[2].Variant?
    ensures outs[0] != outs[1] && outs[0] != outs[2] && outs[1] != outs[2]
  {
    [Variant(stem, w, Jpeg), Variant(stem, w, WebP), Variant(stem, w, Avif)]
  }

  // --------------------------------------------------------------- one step

  /** The guard in front of each encoder call: run it when overwriting, when the
      output is missing, or when the output is older than its input. */
  predicate NeedsRun(stamps: map<Path, int>, input: Path, output: Path, overwrite: bool)
    requires input in stamps
  {
    overwrite || output !in stamps || stamps[output] < stamps[input]
  }

  /** One guarded encoder call writing `output` from `input`. A step that is not
      needed leaves the disk alone; a failing encoder aborts with
      `EncoderFailed`. */
  function Step(d: Disk, tools: Tools, input: Path, output: Path, overwrite: bool): (r: Result<Disk, Error>)
    requires input in d.stamps && output.Variant? && input != output
    ensures r.Err? <==> NeedsRun(d.stamps, input, output, overwrite) && output in tools.failing
    ensures r.Err? ==> r.error == EncoderFailed(output)
    ensures !NeedsRun(d.stamps, input, output, overwrite) ==> r == Ok(d)
    ensures r.Ok? ==> r.value == d || r.value == Produced(d, output)
    ensures r.Ok? ==> output in r.value.stamps && input in r.value.stamps
    ensures r.Ok? ==> r.value.stamps[input] == d.stamps[input]
    ensures r.Ok? ==> d.clock <= r.value.clock
    ensures r.Ok? && NeedsRun(d.stamps, input, output, overwrite) ==> d.clock < r.value.clock
  {
    if NeedsRun(d.stamps, input, output, overwrite) then
      if output in tools.failing then Err(EncoderFailed(output))
      else Ok(Produced(d, output))
    else Ok(d)
  }

  /** An encoder call only moves the disk forward, and from a consistent disk
      its output ends up no older than its input. */
  lemma StepIsLater(d: Disk, tools: Tools, input: Path, output: Path, overwrite: bool)
    requires input in d.stamps && output.Variant? && input != output
    ensures var r := Step(d, tools, input, output, overwrite);
      r.Ok? ==> Later(d, r.value) && (Consistent(d) ==> Consistent(r.value) && r.value.stamps[output] >= d.stamps[input])
  {
    ProducedIsLater(d, output);
  }

  // -------------------------------------------------------------- one width

  /** One iteration of the width loop of `optimize_one`: skip the width when
      its three outputs are fresh (unless overwriting), otherwise run the JPEG,
      WebP and AVIF steps in that order, stopping at the first failure. */
  function WidthOutcome(d: Disk, tools: Tools, source: string, w: int, overwrite: bool): (r: Tally)
    requires Source(source) in d.stamps
    ensures Source(source) in r.disk.stamps
    ensures r.error.None? ==> r.generated + r.skipped == 1
    ensures r.error.Some? ==> r.generated == 0 && r.skipped == 0
    ensures r.error.Some? ==>
              && r.error.value.EncoderFailed?
              && r.error.value.output in Outputs(Stem(source), w)
              && r.error.value.output in tools.failing
    ensures overwrite ==> r.skipped == 0
    ensures r.skipped == 1 ==> r.disk == d
  {
    var outs := Outputs(Stem(source), w);
    if !overwrite && Fresh(d.stamps, Source(source), outs) then Tally(d, 0, 1, None)
    else
      match Step(d, tools, Source(source), outs[0], overwrite)
      case Err(e) => Tally(d, 0, 0, Some(e))
      case Ok(d1) =>
        match Step(d1, tools, outs[0], outs[1], overwrite)
        case Err(e) => Tally(d1, 0, 0, Some(e))
        case Ok(d2) =>
          match Step(d2, tools, outs[0], outs[2], overwrite)
          case Err(e) => Tally(d2, 0, 0, Some(e))
          case Ok(d3) => Tally(d3, 1, 0, None)
  }

  /** One width only moves the disk forward and keeps it consistent. */
  lemma WidthIsLater(d: Disk, tools: Tools, source: string, w: int, overwrite: bool)
    requires Source(source) in d.stamps
    ensures var r := WidthOutcome(d, tools, source, w, overwrite);
      Later(d, r.disk) && (Consistent(d) ==> Consistent(r.disk))
  {
    var outs := Outputs(Stem(source), w);
    StepIsLater(d, tools, Source(source), outs[0], overwrite);
    var s1 := Step(d, tools, Source(source), outs[0], overwrite);
    if s1.Ok? {
      var d1 := s1.value;
      StepIsLater(d1, tools, outs[0], outs[1], overwrite);
      var s2 := Step(d1, tools, outs[0], outs[1], overwrite);
      if s2.Ok? {
        var d2 := s2.value;
        LaterTransitive(d, d1, d2);
        StepIsLater(d2, tools, outs[0], outs[2], overwrite);
        var s3 := Step(d2, tools, outs[0], outs[2], overwrite);
        if s3.Ok? {
          LaterTransitive(d, d2, s3.value);
        }
      }
    }
  }

  /** Outputs that are fresh are skipped, and nothing is written for them. */
  lemma FreshWidthIsSkipped(d: Disk, tools: Tools, source: string, w: int)
    requires Source(source) in d.stamps
    requires Fresh(d.stamps, Source(source), Outputs(Stem(source), w))
    ensures WidthOutcome(d, tools, source, w, false) == Tally(d, 0, 1, None)
  {
  }

  /** A width counted as generated always ran at least one encoder: an output
      that made the width stale is rewritten. */
  lemma GeneratedWidthRanATool(d: Disk, tools: Tools, source: string, w: int, overwrite: bool)
    requires Source(source) in d.stamps
    requires WidthOutcome(d, tools, source, w, overwrite).generated == 1
    ensures d.clock < WidthOutcome(d, tools, source, w, overwrite).disk.clock
  {
    var outs := Outputs(Stem(source), w);
    var src := Source(source);
    var d1 := Step(d, tools, src, outs[0], overwrite).value;
    var d2 := Step(d1, tools, outs[0], outs[1], overwrite).value;
    if !NeedsRun(d.stamps, src, outs[0], overwrite) {
      assert d1 == d;
      if !NeedsRun(d1.stamps, outs[0], outs[1], overwrite) {
        assert d2 == d;
        FreshMeaning(d.stamps, src, outs);
        var k :| 0 <= k < 3 && !(outs[k] in d.stamps && d.stamps[outs[k]] >= d.stamps[src]);
        assert k == 2;
      }
    }
  }

  /** After a width succeeds from a consistent disk, its three outputs are
      fresh: each one was either rewritten after every existing file, or was
      already no older than its input. */
  lemma WidthLeavesFresh(d: Disk, tools: Tools, source: string, w: int, overwrite: bool)
    requires Consistent(d) && Source(source) in d.stamps
    requires WidthOutcome(d, tools, source, w, overwrite).error.None?
    ensures Fresh(WidthOutcome(d, tools, source, w, overwrite).disk.stamps, Source(source), Outputs(Stem(source), w))
  {
    var outs := Outputs(Stem(source), w);
    var src := Source(source);
    if overwrite || !Fresh(d.stamps, src, outs) {
      var d1 := Step(d, tools, src, outs[0], overwrite).value;
      var d2 := Step(d1, tools, outs[0], outs[1], overwrite).value;
      var d3 := Step(d2, tools, outs[0], outs[2], overwrite).value;
      StepIsLater(d, tools, src, outs[0], overwrite);
      StepIsLater(d1, tools, outs[0], outs[1], overwrite);
      StepIsLater(d2, tools, outs[0], outs[2], overwrite);
      assert d1.stamps[outs[0]] >= d.stamps[src];
      assert d3.stamps[src] == d.stamps[src];
      assert d3.stamps[outs[0]] == d2.stamps[outs[0]] == d1.stamps[outs[0]];
      assert d3.stamps[outs[1]] >= d3.stamps[src] by {
        assert d2.stamps[outs[1]] >= d1.stamps[outs[0]];
        assert d3.stamps[outs[1]] == d2.stamps[outs[1]] || d3.stamps[outs[1]] >= d2.clock;
      }
      assert d3.stamps[outs[2]] >= d3.stamps[src];
      FreshMeaning(d3.stamps, src, outs);
    }
  }

  /** Every output was written at or after `clock`. */
  predicate Rewritten(stamps: map<Path, int>, clock: int, outputs: seq<Path>) {
    forall i | 0 <= i < |outputs| :: outputs[i] in stamps && stamps[outputs[i]] >= clock
  }

  /** With `--overwrite`, a width that succeeds has all three outputs rewritten,
      whatever their timestamps were. */
  lemma OverwriteRewritesWidth(d: Disk, tools: Tools, source: string, w: int)
    requires Source(source) in d.stamps
    requires WidthOutcome(d, tools, source, w, true).error.None?
    ensures Rewritten(WidthOutcome(d, tools, source, w, true).disk.stamps, d.clock, Outputs(Stem(source), w))
  {
    var outs := Outputs(Stem(source), w);
    var d1 := Step(d, tools, Source(source), outs[0], true).value;
    var d2 := Step(d1, tools, outs[0], outs[1], true).value;
    var d3 := Step(d2, tools, outs[0], outs[2], true).value;
    assert d1 == Produced(d, outs[0]);
    assert d2 == Produced(d1, outs[1]);
    assert d3 == Produced(d2, outs[2]);
  }

  // ------------------------------------------------------------- all widths

  /** The width loop of `optimize_one` over `widths`, in order, stopping at the
      first failure. */
  function WidthsOutcome(d: Disk, tools: Tools, source: string, widths: seq<int>, overwrite: bool): (r: Tally)
    requires Source(source) in d.stamps
    ensures Source(source) in r.disk.stamps
    ensures r.error.None? ==> r.generated + r.skipped == |widths|
    ensures r.generated + r.skipped <= |widths|
    ensures overwrite ==> r.skipped == 0
    decreases |widths|
  {
    if widths == [] then Tally(d, 0, 0, None)
    else
      var t := WidthsOutcome(d, tools, source, widths[..|widths| - 1], overwrite);
      if t.error.Some? then t
      else
        var u := WidthOutcome(t.disk, tools, source, widths[|widths| - 1], overwrite);
        Tally(u.disk, t.generated + u.generated, t.skipped + u.skipped, u.error)
  }

  /** The width loop only moves the disk forward and keeps it consistent. */
  lemma {:induction false} WidthsIsLater(d: Disk, tools: Tools, source: string, widths: seq<int>, overwrite: bool)
    requires Source(source) in d.stamps
    ensures var r := WidthsOutcome(d, tools, source, widths, overwrite);
      Later(d, r.disk) && (Consistent(d) ==> Consistent(r.disk))
    decreases |widths|
  {
    if widths != [] {
      var front := widths[..|widths| - 1];
      var t := WidthsOutcome(d, tools, source, front, overwrite);
      WidthsIsLater(d, tools, source, front, overwrite);
      if t.error.None? {
        WidthIsLater(t.disk, tools, source, widths[|widths| - 1], overwrite);
        LaterTransitive(d, t.disk, WidthOutcome(t.disk, tools, source, widths[|widths| - 1], overwrite).disk);
      }
    }
  }

  /** Every width's three outputs are fresh for the source image. */
  predicate AllFresh(stamps: map<Path, int>, source: string, widths: seq<int>)
    requires Source(source) in stamps
  {
    forall i | 0 <= i < |widths| :: Fresh(stamps, Source(source), Outputs(Stem(source), widths[i]))
  }

  /** Once a width fails the loop is over: the outcome of the whole loop is the
      outcome of the iterations up to and including the failing one. */
  lemma {:induction false} WidthsAbort(d: Disk, tools: Tools, source: string, widths: seq<int>, overwrite: bool, n: nat)
    requires Source(source) in d.stamps && n <= |widths|
    requires WidthsOutcome(d, tools, source, widths[..n], overwrite).error.Some?
    ensures WidthsOutcome(d, tools, source, widths, overwrite) == WidthsOutcome(d, tools, source, widths[..n], overwrite)
    decreases |widths| - n
  {
    if n < |widths| {
      var longer := widths[..|widths| - 1];
      assert longer[..n] == widths[..n];
      WidthsAbort(d, tools, source, longer, overwrite, n);
    } else {
      assert widths[..n] == widths;
    }
  }

  /** A loop that has not failed runs the next width and adds its counts. */
  lemma WidthsNext(d: Disk, tools: Tools, source: string, widths: seq<int>, overwrite: bool, i: nat)
    requires Source(source) in d.stamps && i < |widths|
    requires WidthsOutcome(d, tools, source, widths[..i], overwrite).error.None?
    ensures var t := WidthsOutcome(d, tools, source, widths[..i], overwrite);
      var u := WidthOutcome(t.disk, tools, source, widths[i], overwrite);
      WidthsOutcome(d, tools, source, widths[..i + 1], overwrite) ==
        Tally(u.disk, t.generated + u.generated, t.skipped + u.skipped, u.error)
  {
    var prefix := widths[..i + 1];
    assert prefix[..|prefix| - 1] == widths[..i];
    assert prefix[|prefix| - 1] == widths[i];
  }

  /** A loop that finishes from a consistent disk leaves every width's outputs
      fresh. */
  lemma {:induction false} WidthsLeaveFresh(d: Disk, tools: Tools, source: string, widths: seq<int>, overwrite: bool)
    requires Consistent(d) && Source(source) in d.stamps
    requires WidthsOutcome(d, tools, source, widths, overwrite).error.None?
    ensures AllFresh(WidthsOutcome(d, tools, source, widths, overwrite).disk.stamps, source, widths)
    decreases |widths|
  {
    if widths != [] {
      var front := widths[..|widths| - 1];
      var last := widths[|widths| - 1];
      var t := WidthsOutcome(d, tools, source, front, overwrite);
      var u := WidthOutcome(t.disk, tools, source, last, overwrite);
      WidthsIsLater(d, tools, source, front, overwrite);
      WidthIsLater(t.disk, tools, source, last, overwrite);
      WidthsLeaveFresh(d, tools, source, front, overwrite);
      WidthLeavesFresh(t.disk, tools, source, last, overwrite);
      forall i | 0 <= i < |widths|
        ensures Fresh(u.disk.stamps, Source(source), Outputs(Stem(source), widths[i]))
      {
        if i < |widths| - 1 {
          assert widths[i] == front[i];
          FreshPersists(t.disk, u.disk, Source(source), Outputs(Stem(source), widths[i]));
        }
      }
    }
  }

  /** Outputs rewritten since `clock` have also been rewritten since any
      earlier time, and stay so whatever the script writes later. */
  lemma RewrittenPersists(d: Disk, e: Disk, since: int, clock: int, outputs: seq<Path>)
    requires Later(d, e) && since <= clock && since <= d.clock && Rewritten(d.stamps, clock, outputs)
    ensures Rewritten(e.stamps, since, outputs)
  {
    forall i | 0 <= i < |outputs|
      ensures outputs[i] in e.stamps && e.stamps[outputs[i]] >= since
    {
      assert outputs[i] in d.stamps;
    }
  }

  /** With `--overwrite`, a loop that finishes has rewritten every output of
      every width. */
  lemma {:induction false} OverwriteRewritesWidths(d: Disk, tools: Tools, source: string, widths: seq<int>)
    requires Source(source) in d.stamps
    requires WidthsOutcome(d, tools, source, widths, true).error.None?
    ensures forall i | 0 <= i < |widths| ::
              Rewritten(WidthsOutcome(d, tools, source, widths, true).disk.stamps, d.clock, Outputs(Stem(source), widths[i]))
    decreases |widths|
  {
    if widths != [] {
      var front := widths[..|widths| - 1];
      var last := widths[|widths| - 1];
      var t := WidthsOutcome(d, tools, source, front, true);
      var u := WidthOutcome(t.disk, tools, source, last, true);
      WidthsIsLater(d, tools, source, front, true);
      WidthIsLater(t.disk, tools, source, last, true);
      OverwriteRewritesWidths(d, tools, source, front);
      OverwriteRewritesWidth(t.disk, tools, source, last);
      forall i | 0 <= i < |widths|
        ensures Rewritten(u.disk.stamps, d.clock, Outputs(Stem(source), widths[i]))
      {
        if i < |widths| - 1 {
          assert widths[i] == front[i];
          RewrittenPersists(t.disk, u.disk, d.clock, d.clock, Outputs(Stem(source), widths[i]));
        } else {
          RewrittenPersists(u.disk, u.disk, d.clock, t.disk.clock, Outputs(Stem(source), widths[i]));
        }
      }
    }
  }

  /** When every output is already fresh and nothing is overwritten, the loop
      writes nothing and skips every width. */
  lemma {:induction false} FreshWidthsAreSkipped(d: Disk, tools: Tools, source: string, widths: seq<int>)
    requires Source(source) in d.stamps && AllFresh(d.stamps, source, widths)
    ensures WidthsOutcome(d, tools, source, widths, false) == Tally(d, 0, |widths|, None)
    decreases |widths|
  {
    if widths != [] {
      var front := widths[..|widths| - 1];
      assert forall i | 0 <= i < |front| :: front[i] == widths[i];
      FreshWidthsAreSkipped(d, tools, source, front);
      FreshWidthIsSkipped(d, tools, source, widths[|widths| - 1]);
    }
  }

  // -------------------------------------------------------------- one image

  /** The widths `optimize_one` converts a source image to: its pixel width
      from the `sips` report, then `target_widths`. */
  function ImageWidths(tools: Tools, source: string, requested: seq<int>): (r: Result<seq<int>, Error>)
    requires |requested| > 0
    ensures source !in tools.reports ==> r == Err(ProbeFailed(source))
    ensures r.Ok? ==> |r.value| > 0 && StrictlyAscending(r.value)
  {
    if source !in tools.reports then Err(ProbeFailed(source))
    else
      match PixelWidthOf(tools.reports[source])
      case Err(e) => Err(e)
      case Ok(n) => Ok(TargetWidths(n, requested))
  }

  /** The probe's error is the image's error; otherwise the widths are the
      targets for the probed width, topped by the smaller of that width and the
      largest requested one. */
  lemma ImageWidthsMeaning(tools: Tools, source: string, requested: seq<int>)
    requires |requested| > 0 && source in tools.reports
    ensures var probe := PixelWidthOf(tools.reports[source]);
      var r := ImageWidths(tools, source, requested);
      && (probe.Err? <==> r.Err?)
      && (probe.Err? ==> r.error == probe.error)
      && (probe.Ok? ==> r.value == TargetWidths(probe.value, requested)
                        && r.value[|r.value| - 1] == Min(probe.value, Max(requested)))
  {
  }

  /** The outcome of `optimize_one` once the probe has given `plan`: the
      widths to convert to, or the error that aborts the image. `sips` fails on
      a source that is not on disk, so such a source fails the probe. */
  function ImageRun(d: Disk, tools: Tools, source: string, plan: Result<seq<int>, Error>, overwrite: bool): (r: Tally)
    ensures Source(source) !in d.stamps ==> r == Tally(d, 0, 0, Some(ProbeFailed(source)))
    ensures Source(source) in d.stamps && plan.Err? ==> r == Tally(d, 0, 0, Some(plan.error))
    ensures r.error.None? ==> Source(source) in d.stamps && plan.Ok? && r.generated + r.skipped == |plan.value|
    ensures overwrite ==> r.skipped == 0
  {
    if Source(source) !in d.stamps then Tally(d, 0, 0, Some(ProbeFailed(source)))
    else
      match plan
      case Err(e) => Tally(d, 0, 0, Some(e))
      case Ok(widths) => WidthsOutcome(d, tools, source, widths, overwrite)
  }

  /** Converting an image only moves the disk forward and keeps it consistent. */
  lemma ImageRunIsLater(d: Disk, tools: Tools, source: string, plan: Result<seq<int>, Error>, overwrite: bool)
    ensures var r := ImageRun(d, tools, source, plan, overwrite);
      Later(d, r.disk) && (Consistent(d) ==> Consistent(r.disk))
  {
    if Source(source) in d.stamps && plan.Ok? {
      WidthsIsLater(d, tools, source, plan.value, overwrite);
    }
  }

  /** `optimize_one` for one source image: probe, then run. */
  function ImageOutcome(d: Disk, tools: Tools, source: string, requested: seq<int>, overwrite: bool): (r: Tally)
    requires |requested| > 0
    ensures source !in tools.reports ==> r == Tally(d, 0, 0, Some(ProbeFailed(source)))
    ensures r.error.None? ==>
      var plan := ImageWidths(tools, source, requested);
      plan.Ok? && r.generated + r.skipped == |plan.value|
    ensures overwrite ==> r.skipped == 0
  {
    ImageRun(d, tools, source, ImageWidths(tools, source, requested), overwrite)
  }

  /** A source image whose conversion has nothing left to do: it is on disk,
      its probe succeeded and every output for its widths is fresh. */
  predicate Settled(stamps: map<Path, int>, source: string, plan: Result<seq<int>, Error>) {
    Source(source) in stamps && plan.Ok? && AllFresh(stamps, source, plan.value)
  }

  /** An image converted without error from a consistent disk is settled. */
  lemma ImageLeavesSettled(d: Disk, tools: Tools, source: string, plan: Result<seq<int>, Error>, overwrite: bool)
    requires Consistent(d)
    requires ImageRun(d, tools, source, plan, overwrite).error.None?
    ensures Settled(ImageRun(d, tools, source, plan, overwrite).disk.stamps, source, plan)
  {
    WidthsLeaveFresh(d, tools, source, plan.value, overwrite);
  }

  /** A settled image stays settled whatever the script does to the output
      directory afterwards. */
  lemma SettledPersists(d: Disk, e: Disk, source: string, plan: Result<seq<int>, Error>)
    requires Consistent(d) && Later(d, e)
    requires Settled(d.stamps, source, plan)
    ensures Settled(e.stamps, source, plan)
  {
    var widths := plan.value;
    forall i | 0 <= i < |widths|
      ensures Fresh(e.stamps, Source(source), Outputs(Stem(source), widths[i]))
    {
      FreshPersists(d, e, Source(source), Outputs(Stem(source), widths[i]));
    }
  }

  /** Converting a settled image without `--overwrite` runs no encoder and
      counts every width as skipped. */
  lemma SettledImageIsSkipped(d: Disk, tools: Tools, source: string, plan: Result<seq<int>, Error>)
    requires Settled(d.stamps, source, plan)
    ensures ImageRun(d, tools, source, plan, false) == Tally(d, 0, |plan.value|, None)
  {
    FreshWidthsAreSkipped(d, tools, source, plan.value);
  }

  /** Every output of every width of `plan` was written at or after `clock`. */
  predicate ImageRewritten(stamps: map<Path, int>, clock: int, source: string, plan: Result<seq<int>, Error>) {
    plan.Ok? && forall j | 0 <= j < |plan.value| :: Rewritten(stamps, clock, Outputs(Stem(source), plan.value[j]))
  }

  /** With `--overwrite`, an image converted without error has every output of
      every width rewritten. */
  lemma ImageRunRewrites(d: Disk, tools: Tools, source: string, plan: Result<seq<int>, Error>)
    requires ImageRun(d, tools, source, plan, true).error.None?
    ensures ImageRewritten(ImageRun(d, tools, source, plan, true).disk.stamps, d.clock, source, plan)
  {
    OverwriteRewritesWidths(d, tools, source, plan.value);
  }

  /** An image's rewritten outputs stay rewritten as the disk moves forward. */
  lemma ImageRewrittenPersists(d: Disk, e: Disk, since: int, clock: int, source: string, plan: Result<seq<int>, Error>)
    requires Later(d, e) && since <= clock && since <= d.clock
    requires ImageRewritten(d.stamps, clock, source, plan)
    ensures ImageRewritten(e.stamps, since, source, plan)
  {
    forall j | 0 <= j < |plan.value|
      ensures Rewritten(e.stamps, since, Outputs(Stem(source), plan.value[j]))
    {
      RewrittenPersists(d, e, since, clock, Outputs(Stem(source), plan.value[j]));
    }
  }

  // ---------------------------------------------------------------- methods

  /** One guarded encoder call on the mutable filesystem. */
  method RunStep(fs: FileSystem, tools: Tools, input: Path, output: Path, overwrite: bool) returns (err: Option<Error>)
    requires input in fs.stamps && output.Variant? && input != output
    modifies fs
    ensures var s := Step(old(fs.State()), tools, input, output, overwrite);
      if s.Ok? then err == None && fs.State() == s.value
      else err == Some(s.error) && fs.State() == old(fs.State())
  {
    if overwrite || output !in fs.stamps || fs.stamps[output] < fs.stamps[input] {
      if output in tools.failing {
        return Some(EncoderFailed(output));
      }
      fs.Produce(output);
    }
    return None;
  }

  /** One iteration of the width loop on the mutable filesystem: the skip
      test, then the three guarded encoder calls. */
  method OptimizeWidth(fs: FileSystem, tools: Tools, source: string, w: int, overwrite: bool)
    returns (generated: nat, skipped: nat, err: Option<Error>)
    requires Source(source) in fs.stamps
    modifies fs
    ensures WidthOutcome(old(fs.State()), tools, source, w, overwrite) == Tally(fs.State(), generated, skipped, err)
  {
    var stem := Stem(source);
    var jpg, webp, avif := Variant(stem, w, Jpeg), Variant(stem, w, WebP), Variant(stem, w, Avif);
    var upToDate := false;
    if !overwrite {
      upToDate := fs.UpToDate(Source(source), [jpg, webp, avif]);
    }
    if upToDate {
      return 0, 1, None;
    }
    err := RunStep(fs, tools, Source(source), jpg, overwrite);
    if err.Some? {
      return 0, 0, err;
    }
    err := RunStep(fs, tools, jpg, webp, overwrite);
    if err.Some? {
      return 0, 0, err;
    }
    err := RunStep(fs, tools, jpg, avif, overwrite);
    if err.Some? {
      return 0, 0, err;
    }
    return 1, 0, None;
  }

  /** The width loop of `optimize_one` on the mutable filesystem. */
  method OptimizeWidths(fs: FileSystem, tools: Tools, source: string, widths: seq<int>, overwrite: bool)
    returns (r: Result<Counts, Error>)
    requires Source(source) in fs.stamps
    modifies fs
    ensures var t := WidthsOutcome(old(fs.State()), tools, source, widths, overwrite);
      fs.State() == t.disk && r == Outcome(t)
  {
    ghost var d0 := fs.State();
    var generated: nat, skipped: nat := 0, 0;
    for i := 0 to |widths|
      invariant WidthsOutcome(d0, tools, source, widths[..i], overwrite) == Tally(fs.State(), generated, skipped, None)
    {
      WidthsNext(d0, tools, source, widths, overwrite, i);
      var g, s, err := OptimizeWidth(fs, tools, source, widths[i], overwrite);
      if err.Some? {
        WidthsAbort(d0, tools, source, widths, overwrite, i + 1);
        return Err(err.value);
      }
      generated, skipped := generated + g, skipped + s;
    }
    assert widths[..|widths|] == widths;
    return Ok(Counts(generated, skipped));
  }

  /** `optimize_one`: probe the width, then for every target width skip it or
      regenerate its outputs, counting both. */
  method OptimizeOne(fs: FileSystem, tools: Tools, source: string, requested: seq<int>, overwrite: bool)
    returns (r: Result<Counts, Error>)
    requires |requested| > 0
    modifies fs
    ensures var t := ImageOutcome(old(fs.State()), tools, source, requested, overwrite);
      fs.State() == t.disk && r == Outcome(t)
  {
    if Source(source) !in fs.stamps || source !in tools.reports {
      return Err(ProbeFailed(source));
    }
    var width := ParsePixelWidth(tools.reports[source]);
    if width.Err? {
      return Err(width.error);
    }
    var widths := TargetWidths(width.value, requested);
    r := OptimizeWidths(fs, tools, source, widths, overwrite);
  }
}
