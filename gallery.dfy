/** The whole script (`main`): parse the requested widths, pick the source
    images of the input directory in name order, convert each with
    `optimize_one` and add up what was generated and what was skipped. */
module Gallery {
  import opened Common
  import opened Text
  import opened Files
  import opened Errors
  import opened Widths
  import opened Convert

  /** One entry of the input directory listing: its name, and whether it is a
      regular file. */
  datatype Entry = Entry(name: string, isFile: bool)

  /** The suffixes, compared in lower case, of the images the script converts. */
  const ImageSuffixes: set<string> := {".jpg", ".jpeg", ".png"}

  /** The filter of `main`'s list comprehension. */
  predicate IsImage(e: Entry) {
    e.isFile && Lower(Suffix(e.name)) in ImageSuffixes
  }

  // ------------------------------------------------------- sorting the names

  /** Names in the order `sorted` puts them. */
  predicate SortedNames(names: seq<string>) {
    forall i, j | 0 <= i < j < |names| :: LexLe(names[i], names[j])
  }

  /** `x` inserted before the first name it does not follow. */
  function InsertName(x: string, names: seq<string>): (r: seq<string>)
    ensures multiset(r) == multiset(names) + multiset{x}
    decreases |names|
  {
    if names == [] || LexLe(x, names[0]) then [x] + names
    else
      assert names == [names[0]] + names[1..];
      [names[0]] + InsertName(x, names[1..])
  }

  lemma {:induction false} InsertNameSorted(x: string, names: seq<string>)
    requires SortedNames(names)
    ensures SortedNames(InsertName(x, names))
    decreases |names|
  {
    if names == [] {
    } else if LexLe(x, names[0]) {
      forall j | 0 <= j < |names|
        ensures LexLe(x, names[j])
      {
        if j > 0 {
          LexLeTransitive(x, names[0], names[j]);
        }
      }
    } else {
      var rest := names[1..];
      var r := InsertName(x, rest);
      InsertNameSorted(x, rest);
      LexLeTotal(x, names[0]);
      forall k | 0 <= k < |rest|
        ensures LexLe(names[0], rest[k])
      {
        assert rest[k] == names[k + 1];
      }
      InsertNameAbove(x, rest, names[0]);
      var s := [names[0]] + r;
      forall i, j | 0 <= i < j < |s|
        ensures LexLe(s[i], s[j])
      {
        if i == 0 {
          assert s[j] in r;
        } else {
          assert s[i] == r[i - 1] && s[j] == r[j - 1];
        }
      }
    }
  }

  /** A name inserted among names that all follow `low` leaves them all
      following `low`. */
  lemma InsertNameAbove(x: string, names: seq<string>, low: string)
    requires LexLe(low, x)
    requires forall k | 0 <= k < |names| :: LexLe(low, names[k])
    ensures forall y | y in InsertName(x, names) :: LexLe(low, y)
  {
    var r := InsertName(x, names);
    forall y | y in r
      ensures LexLe(low, y)
    {
      assert y in multiset(r);
      if y != x {
        assert y in multiset(names);
        var k :| 0 <= k < |names| && names[k] == y;
      }
    }
  }

  /** Python's `sorted` on the names: the same names, in order. */
  function SortNames(names: seq<string>): (r: seq<string>)
    ensures SortedNames(r)
    ensures multiset(r) == multiset(names)
    decreases |names|
  {
    if names == [] then []
    else
      var front := names[..|names| - 1];
      assert names == front + [names[|names| - 1]];
      var sorted := SortNames(front);
      InsertNameSorted(names[|names| - 1], sorted);
      InsertName(names[|names| - 1], sorted)
  }

  // ----------------------------------------------------------- source images

  /** The names of the listing's images, in listing order: `main`'s list
      comprehension. */
  function ImageNames(entries: seq<Entry>): (r: seq<string>)
    ensures |r| <= |entries|
    decreases |entries|
  {
    if entries == [] then []
    else
      var front := ImageNames(entries[..|entries| - 1]);
      var e := entries[|entries| - 1];
      if IsImage(e) then front + [e.name] else front
  }

  /** The name of every image entry is collected. */
  lemma {:induction false} ImageNameCollected(entries: seq<Entry>, i: nat)
    requires i < |entries| && IsImage(entries[i])
    ensures entries[i].name in ImageNames(entries)
    decreases |entries|
  {
    if i < |entries| - 1 {
      var front := entries[..|entries| - 1];
      assert front[i] == entries[i];
      ImageNameCollected(front, i);
    }
  }

  /** Every collected name is the name of an image entry. */
  lemma {:induction false} ImageNameListed(entries: seq<Entry>, n: string) returns (i: nat)
    requires n in ImageNames(entries)
    ensures i < |entries| && IsImage(entries[i]) && entries[i].name == n
    decreases |entries|
  {
    var front := entries[..|entries| - 1];
    if n in ImageNames(front) {
      i := ImageNameListed(front, n);
      assert front[i] == entries[i];
    } else {
      i := |entries| - 1;
    }
  }

  /** A name is collected exactly when some image entry of the listing has it. */
  lemma ImageNamesMeaning(entries: seq<Entry>, n: string)
    ensures n in ImageNames(entries) <==> exists i | 0 <= i < |entries| :: IsImage(entries[i]) && entries[i].name == n
  {
    if n in ImageNames(entries) {
      var i := ImageNameListed(entries, n);
    }
    if exists i | 0 <= i < |entries| :: IsImage(entries[i]) && entries[i].name == n {
      var i :| 0 <= i < |entries| && IsImage(entries[i]) && entries[i].name == n;
      ImageNameCollected(entries, i);
    }
  }

  /** The images of a directory listing, sorted by name; `NoImages` when there
      is none. */
  function Sources(entries: seq<Entry>): (r: Result<seq<string>, Error>)
    ensures r.Err? <==> ImageNames(entries) == []
    ensures r.Err? ==> r.error == NoImages
    ensures r.Ok? ==> SortedNames(r.value) && multiset(r.value) == multiset(ImageNames(entries))
  {
    var names := ImageNames(entries);
    if names == [] then Err(NoImages) else Ok(SortNames(names))
  }

  /** The run stops with `NoImages` exactly when the listing holds no image,
      and otherwise processes exactly the names of the listing's images. */
  lemma SourcesMeaning(entries: seq<Entry>)
    ensures Sources(entries).Err? <==> forall i | 0 <= i < |entries| :: !IsImage(entries[i])
    ensures Sources(entries).Ok? ==> forall n :: n in Sources(entries).value <==>
              exists i | 0 <= i < |entries| :: IsImage(entries[i]) && entries[i].name == n
  {
    var names := ImageNames(entries);
    if names != [] {
      ImageNamesMeaning(entries, names[0]);
      var sorted := Sources(entries).value;
      forall n
        ensures n in sorted <==> exists i | 0 <= i < |entries| :: IsImage(entries[i]) && entries[i].name == n
      {
        ImageNamesMeaning(entries, n);
        assert n in sorted <==> n in multiset(sorted);
        assert n in names <==> n in multiset(names);
      }
    } else {
      forall i | 0 <= i < |entries|
        ensures !IsImage(entries[i])
      {
        ImageNamesMeaning(entries, entries[i].name);
      }
    }
  }

  // ------------------------------------------------------------ the batch

  /** What the probe of `optimize_one` gives for a source: the widths to
      convert it to, or the error that stops the run there. */
  type Plan = Result<seq<int>, Error>

  /** The plans of the first `n` sources. The probe reads only the `sips`
      report, never the output directory, so the plans can be read off before
      the loop runs. */
  function Plans(tools: Tools, sources: seq<string>, requested: seq<int>, n: nat): (r: seq<Plan>)
    requires |requested| > 0 && n <= |sources|
    ensures |r| == n
    decreases n
  {
    if n == 0 then [] else Plans(tools, sources, requested, n - 1) + [ImageWidths(tools, sources[n - 1], requested)]
  }

  /** The plan of source `k` is what the probe gives for it. */
  lemma {:induction false} PlansAt(tools: Tools, sources: seq<string>, requested: seq<int>, n: nat, k: nat)
    requires |requested| > 0 && k < n <= |sources|
    ensures Plans(tools, sources, requested, n)[k] == ImageWidths(tools, sources[k], requested)
    decreases n
  {
    if k < n - 1 {
      PlansAt(tools, sources, requested, n - 1, k);
    }
  }

  /** The number of widths the plans from source `i` on convert to: what a
      run over those sources that finishes reports as generated plus skipped. */
  function Planned(plans: seq<Plan>, i: nat): nat
    requires i <= |plans|
    decreases |plans| - i
  {
    if i == |plans| then 0
    else (if plans[i].Ok? then |plans[i].value| else 0) + Planned(plans, i + 1)
  }

  /** The loop of `main` from source `i` on, starting from disk `d`: each
      source converted by its plan, in order, adding up the counts and
      stopping at the first failure. */
  function BatchFrom(d: Disk, tools: Tools, sources: seq<string>, plans: seq<Plan>, overwrite: bool, i: nat): (r: Tally)
    requires |plans| == |sources| && i <= |sources|
    ensures r.error.None? ==> r.generated + r.skipped == Planned(plans, i)
    ensures overwrite ==> r.skipped == 0
    decreases |sources| - i
  {
    if i == |sources| then Tally(d, 0, 0, None)
    else
      var u := ImageRun(d, tools, sources[i], plans[i], overwrite);
      if u.error.Some? then u
      else
        var t := BatchFrom(u.disk, tools, sources, plans, overwrite, i + 1);
        Tally(t.disk, u.generated + t.generated, u.skipped + t.skipped, t.error)
  }

  /** The batch only moves the disk forward and keeps it consistent: source
      images are never touched and every file it writes is newer than the
      disk it started from. */
  lemma {:induction false} BatchIsLater(d: Disk, tools: Tools, sources: seq<string>, plans: seq<Plan>, overwrite: bool, i: nat)
    requires |plans| == |sources| && i <= |sources|
    ensures var r := BatchFrom(d, tools, sources, plans, overwrite, i);
      Later(d, r.disk) && (Consistent(d) ==> Consistent(r.disk))
    decreases |sources| - i
  {
    if i < |sources| {
      var u := ImageRun(d, tools, sources[i], plans[i], overwrite);
      ImageRunIsLater(d, tools, sources[i], plans[i], overwrite);
      if u.error.None? {
        BatchIsLater(u.disk, tools, sources, plans, overwrite, i + 1);
        LaterTransitive(d, u.disk, BatchFrom(u.disk, tools, sources, plans, overwrite, i + 1).disk);
      }
    }
  }

  /** `whole`, the tally of the entire loop, is what remains from source `i`
      on, once the counts of the earlier sources are added. */
  predicate Resumes(whole: Tally, rest: Tally, generated: nat, skipped: nat) {
    && whole.disk == rest.disk
    && whole.generated == generated + rest.generated
    && whole.skipped == skipped + rest.skipped
    && whole.error == rest.error
  }

  /** One more source of the loop of `main`: a failure ends the run with that
      source's error, otherwise its counts join those of the earlier sources. */
  lemma BatchResumes(d: Disk, tools: Tools, sources: seq<string>, plans: seq<Plan>, overwrite: bool, i: nat,
                     generated: nat, skipped: nat, whole: Tally, u: Tally)
    requires |plans| == |sources| && i < |sources|
    requires Resumes(whole, BatchFrom(d, tools, sources, plans, overwrite, i), generated, skipped)
    requires u == ImageRun(d, tools, sources[i], plans[i], overwrite)
    ensures u.error.Some? ==> whole.disk == u.disk && whole.error == u.error
    ensures u.error.None? ==>
      Resumes(whole, BatchFrom(u.disk, tools, sources, plans, overwrite, i + 1), generated + u.generated, skipped + u.skipped)
  {
  }

  /** What a run of the script does: an invalid `--widths` value, then an
      input directory without images, abort it before any conversion. */
  function GalleryOutcome(d: Disk, tools: Tools, entries: seq<Entry>, raw: string, overwrite: bool): (r: Tally)
    ensures WidthsOf(raw).Err? ==> r == Tally(d, 0, 0, Some(WidthsOf(raw).error))
    ensures WidthsOf(raw).Ok? && Sources(entries).Err? ==> r == Tally(d, 0, 0, Some(NoImages))
    ensures overwrite ==> r.skipped == 0
  {
    match WidthsOf(raw)
    case Err(e) => Tally(d, 0, 0, Some(e))
    case Ok(requested) =>
      match Sources(entries)
      case Err(e) => Tally(d, 0, 0, Some(e))
      case Ok(sources) => BatchFrom(d, tools, sources, Plans(tools, sources, requested, |sources|), overwrite, 0)
  }

  /** The sources from `i` on are settled. */
  predicate AllSettled(stamps: map<Path, int>, sources: seq<string>, plans: seq<Plan>, i: nat)
    requires |plans| == |sources| && i <= |sources|
    decreases |sources| - i
  {
    i == |sources| || (Settled(stamps, sources[i], plans[i]) && AllSettled(stamps, sources, plans, i + 1))
  }

  /** `AllSettled` says of each source from `i` on that it is settled. */
  lemma {:induction false} AllSettledMeaning(stamps: map<Path, int>, sources: seq<string>, plans: seq<Plan>, i: nat)
    requires |plans| == |sources| && i <= |sources|
    ensures AllSettled(stamps, sources, plans, i) <==> forall k | i <= k < |sources| :: Settled(stamps, sources[k], plans[k])
    decreases |sources| - i
  {
    if i < |sources| {
      AllSettledMeaning(stamps, sources, plans, i + 1);
    }
  }

  /** A batch that finishes from a consistent disk leaves every source it
      processed settled. */
  lemma {:induction false} BatchLeavesSettled(d: Disk, tools: Tools, sources: seq<string>, plans: seq<Plan>, overwrite: bool, i: nat)
    requires Consistent(d) && |plans| == |sources| && i <= |sources|
    requires BatchFrom(d, tools, sources, plans, overwrite, i).error.None?
    ensures AllSettled(BatchFrom(d, tools, sources, plans, overwrite, i).disk.stamps, sources, plans, i)
    decreases |sources| - i
  {
    if i < |sources| {
      var u := ImageRun(d, tools, sources[i], plans[i], overwrite);
      var last := BatchFrom(u.disk, tools, sources, plans, overwrite, i + 1).disk;
      ImageRunIsLater(d, tools, sources[i], plans[i], overwrite);
      ImageLeavesSettled(d, tools, sources[i], plans[i], overwrite);
      BatchLeavesSettled(u.disk, tools, sources, plans, overwrite, i + 1);
      BatchIsLater(u.disk, tools, sources, plans, overwrite, i + 1);
      SettledPersists(u.disk, last, sources[i], plans[i]);
    }
  }

  /** A batch of settled sources without `--overwrite` writes nothing and
      skips every planned width. */
  lemma {:induction false} SettledBatchIsSkipped(d: Disk, tools: Tools, sources: seq<string>, plans: seq<Plan>, i: nat)
    requires |plans| == |sources| && i <= |sources|
    requires AllSettled(d.stamps, sources, plans, i)
    ensures BatchFrom(d, tools, sources, plans, false, i) == Tally(d, 0, Planned(plans, i), None)
    decreases |sources| - i
  {
    if i < |sources| {
      SettledImageIsSkipped(d, tools, sources[i], plans[i]);
      SettledBatchIsSkipped(d, tools, sources, plans, i + 1);
    }
  }

  /** Running the script a second time, without `--overwrite` and with nothing
      changed in between, converts nothing: every width the first run handled
      is skipped. */
  lemma RerunSkipsEverything(d: Disk, tools: Tools, entries: seq<Entry>, raw: string, overwrite: bool)
    requires Consistent(d)
    requires GalleryOutcome(d, tools, entries, raw, overwrite).error.None?
    ensures var first := GalleryOutcome(d, tools, entries, raw, overwrite);
      GalleryOutcome(first.disk, tools, entries, raw, false) == Tally(first.disk, 0, first.generated + first.skipped, None)
  {
    var requested := WidthsOf(raw).value;
    var sources := Sources(entries).value;
    var plans := Plans(tools, sources, requested, |sources|);
    var first := BatchFrom(d, tools, sources, plans, overwrite, 0);
    BatchLeavesSettled(d, tools, sources, plans, overwrite, 0);
    SettledBatchIsSkipped(first.disk, tools, sources, plans, 0);
  }

  /** With `--overwrite`, a batch that finishes has rewritten every output of
      every planned width of every source from `i` on. */
  lemma {:induction false} BatchRewritesAll(d: Disk, tools: Tools, sources: seq<string>, plans: seq<Plan>, i: nat)
    requires |plans| == |sources| && i <= |sources|
    requires BatchFrom(d, tools, sources, plans, true, i).error.None?
    ensures forall k | i <= k < |sources| ::
      ImageRewritten(BatchFrom(d, tools, sources, plans, true, i).disk.stamps, d.clock, sources[k], plans[k])
    decreases |sources| - i
  {
    if i < |sources| {
      var u := ImageRun(d, tools, sources[i], plans[i], true);
      var last := BatchFrom(u.disk, tools, sources, plans, true, i + 1).disk;
      ImageRunIsLater(d, tools, sources[i], plans[i], true);
      ImageRunRewrites(d, tools, sources[i], plans[i]);
      BatchIsLater(u.disk, tools, sources, plans, true, i + 1);
      BatchRewritesAll(u.disk, tools, sources, plans, i + 1);
      forall k | i <= k < |sources|
        ensures ImageRewritten(last.stamps, d.clock, sources[k], plans[k])
      {
        if k == i {
          ImageRewrittenPersists(u.disk, last, d.clock, d.clock, sources[i], plans[i]);
        } else {
          ImageRewrittenPersists(last, last, d.clock, u.disk.clock, sources[k], plans[k]);
        }
      }
    }
  }

  /** A run with `--overwrite` that finishes regenerates everything: every
      output of every target width of every source image is written during the
      run, however fresh it was before. */
  lemma OverwriteRewritesEverything(d: Disk, tools: Tools, entries: seq<Entry>, raw: string)
    requires GalleryOutcome(d, tools, entries, raw, true).error.None?
    ensures WidthsOf(raw).Ok? && Sources(entries).Ok?
    ensures var sources := Sources(entries).value;
      forall k | 0 <= k < |sources| ::
        ImageRewritten(GalleryOutcome(d, tools, entries, raw, true).disk.stamps, d.clock,
                       sources[k], ImageWidths(tools, sources[k], WidthsOf(raw).value))
  {
    var requested := WidthsOf(raw).value;
    var sources := Sources(entries).value;
    var plans := Plans(tools, sources, requested, |sources|);
    BatchRewritesAll(d, tools, sources, plans, 0);
    forall k | 0 <= k < |sources|
      ensures plans[k] == ImageWidths(tools, sources[k], requested)
    {
      PlansAt(tools, sources, requested, |sources|, k);
    }
  }

  // -------------------------------------------------------------- the script

  /** `main` after argument parsing: the widths, the sources, then every source
      through `optimize_one`, adding up the counts it returns. */
  method OptimizeGallery(fs: FileSystem, tools: Tools, entries: seq<Entry>, raw: string, overwrite: bool)
    returns (r: Result<Counts, Error>)
    modifies fs
    ensures var t := GalleryOutcome(old(fs.State()), tools, entries, raw, overwrite);
      fs.State() == t.disk && r == Outcome(t)
  {
    var widths := ParseWidths(raw);
    if widths.Err? {
      return Err(widths.error);
    }
    var requested := widths.value;
    var listed := Sources(entries);
    if listed.Err? {
      return Err(listed.error);
    }
    var sources := listed.value;
    ghost var plans := Plans(tools, sources, requested, |sources|);
    forall k | 0 <= k < |sources|
      ensures plans[k] == ImageWidths(tools, sources[k], requested)
    {
      PlansAt(tools, sources, requested, |sources|, k);
    }
    r := OptimizeBatch(fs, tools, sources, requested, overwrite, plans);
  }

  /** The loop of `main` on the mutable filesystem. The ghost `plans` are what
      the probe of `optimize_one` gives for each source. */
  method OptimizeBatch(fs: FileSystem, tools: Tools, sources: seq<string>, requested: seq<int>, overwrite: bool,
                       ghost plans: seq<Plan>)
    returns (r: Result<Counts, Error>)
    requires |requested| > 0 && |plans| == |sources|
    requires forall k {:trigger ImageWidths(tools, sources[k], requested)} | 0 <= k < |sources| ::
      plans[k] == ImageWidths(tools, sources[k], requested)
    modifies fs
    ensures var t := BatchFrom(old(fs.State()), tools, sources, plans, overwrite, 0);
      fs.State() == t.disk && r == Outcome(t)
  {
    ghost var whole := BatchFrom(fs.State(), tools, sources, plans, overwrite, 0);
    var totalGenerated: nat, totalSkipped: nat := 0, 0;
    for i := 0 to |sources|
      invariant Resumes(whole, BatchFrom(fs.State(), tools, sources, plans, overwrite, i), totalGenerated, totalSkipped)
    {
      var counts := OptimizeNext(fs, tools, sources, requested, overwrite, plans, i, totalGenerated, totalSkipped, whole);
      if counts.Err? {
        return counts;
      }
      totalGenerated, totalSkipped := totalGenerated + counts.value.generated, totalSkipped + counts.value.skipped;
    }
    return Ok(Counts(totalGenerated, totalSkipped));
  }

  /** One iteration of the loop of `main`: `optimize_one` on source `i`. */
  method OptimizeNext(fs: FileSystem, tools: Tools, sources: seq<string>, requested: seq<int>, overwrite: bool,
                      ghost plans: seq<Plan>, i: nat, generated: nat, skipped: nat, ghost whole: Tally)
    returns (r: Result<Counts, Error>)
    requires |requested| > 0 && |plans| == |sources| && i < |sources|
    requires plans[i] == ImageWidths(tools, sources[i], requested)
    requires Resumes(whole, BatchFrom(fs.State(), tools, sources, plans, overwrite, i), generated, skipped)
    modifies fs
    ensures r.Err? ==> fs.State() == whole.disk && r == Outcome(whole)
    ensures r.Ok? ==>
      Resumes(whole, BatchFrom(fs.State(), tools, sources, plans, overwrite, i + 1),
              generated + r.value.generated, skipped + r.value.skipped)
  {
    ghost var e := fs.State();
    r := OptimizeOne(fs, tools, sources[i], requested, overwrite);
    BatchResumes(e, tools, sources, plans, overwrite, i, generated, skipped, whole,
                 ImageOutcome(e, tools, sources[i], requested, overwrite));
  }
}
