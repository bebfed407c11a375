/** The filesystem the script reads and writes: which files exist and their
    modification times. Timestamps are abstract integers. */
module Files {

  /** The three encodings produced for every width. */
  datatype Format = Jpeg | WebP | Avif

  /** A source image inside the input directory, or the variant
      `<stem>-<width>.<jpg|webp|avif>` inside the output directory. */
  datatype Path = Source(name: string) | Variant(stem: string, width: int, format: Format)

  /** Python's `name.rfind('.')`: the index of the last dot, or -1. */
  function LastDot(name: string): (i: int)
    ensures -1 <= i < |name|
    decreases |name|
  {
    if name == [] then -1
    else if name[|name| - 1] == '.' then |name| - 1
    else LastDot(name[..|name| - 1])
  }

  /** `rfind` finds a dot, and no dot follows it. */
  lemma {:induction false} LastDotIsLast(name: string)
    ensures LastDot(name) >= 0 ==> name[LastDot(name)] == '.'
    ensures forall k | LastDot(name) < k < |name| :: name[k] != '.'
    decreases |name|
  {
    if name != [] && name[|name| - 1] != '.' {
      var front := name[..|name| - 1];
      LastDotIsLast(front);
      assert forall k | 0 <= k < |front| :: front[k] == name[k];
    }
  }

  /** Whether `pathlib` treats the last dot of `name` as starting a suffix: it
      is neither the first nor the last character. */
  predicate HasSuffix(name: string) {
    0 < LastDot(name) < |name| - 1
  }

  /** `PurePath.suffix`: from the last dot on, or empty. */
  function Suffix(name: string): (r: string)
    ensures r == [] || (|r| >= 2 && r[0] == '.')
  {
    LastDotIsLast(name);
    if HasSuffix(name) then name[LastDot(name)..] else []
  }

  /** `PurePath.stem`: the name without its suffix. */
  function Stem(name: string): (r: string)
    ensures |name| > 0 ==> |r| > 0
  {
    if HasSuffix(name) then name[..LastDot(name)] else name
  }

  /** A suffix is empty or one dot followed by dot-free text, and the stem
      followed by the suffix is the whole name. */
  lemma StemSuffix(name: string)
    ensures Suffix(name) == [] || (Suffix(name)[0] == '.' && '.' !in Suffix(name)[1..])
    ensures Stem(name) + Suffix(name) == name
  {
    LastDotIsLast(name);
    if HasSuffix(name) {
      var i := LastDot(name);
      assert name[i..][1..] == name[i + 1..];
      assert name[..i] + name[i..] == name;
    } else {
      assert name + [] == name;
    }
  }

  /** A snapshot of the filesystem: the modification time of every existing file
      (a path that is not a key does not exist), and the clock a file written
      now is stamped with. */
  datatype Disk = Disk(stamps: map<Path, int>, clock: int)

  /** No file is stamped at or after the clock, so a file written now is newer
      than every file already on disk. */
  ghost predicate Consistent(d: Disk) {
    forall p | p in d.stamps :: d.stamps[p] < d.clock
  }

  /** The disk after a tool has (re)written `p`. */
  function Produced(d: Disk, p: Path): (e: Disk)
    ensures p in e.stamps && e.stamps[p] == d.clock < e.clock
  {
    Disk(d.stamps[p := d.clock], d.clock + 1)
  }

  /** `e` can follow `d` in a run of the script: no file disappears, source
      images are untouched, and every file that changed was written at or after
      `d.clock`. */
  ghost predicate Later(d: Disk, e: Disk) {
    && d.clock <= e.clock
    && (forall p | p in d.stamps :: p in e.stamps && (e.stamps[p] == d.stamps[p] || e.stamps[p] >= d.clock))
    && (forall p | p in e.stamps && p.Source? :: p in d.stamps && e.stamps[p] == d.stamps[p])
  }

  lemma LaterTransitive(d1: Disk, d2: Disk, d3: Disk)
    requires Later(d1, d2) && Later(d2, d3)
    ensures Later(d1, d3)
  {
  }

  /** Writing a variant is a step forward that keeps the disk consistent. */
  lemma ProducedIsLater(d: Disk, p: Path)
    requires p.Variant?
    ensures Later(d, Produced(d, p))
    ensures Consistent(d) ==> Consistent(Produced(d, p))
  {
  }

  /** `out` exists and is not older than `source`. */
  predicate NotOlder(stamps: map<Path, int>, source: Path, out: Path)
    requires source in stamps
  {
    out in stamps && stamps[out] >= stamps[source]
  }

  /** The verdict of `up_to_date`: the outputs, checked one after the other,
      all exist and none is older than the source. */
  predicate Fresh(stamps: map<Path, int>, source: Path, outputs: seq<Path>)
    requires source in stamps
    decreases |outputs|
  {
    outputs == [] ||
    (Fresh(stamps, source, outputs[..|outputs| - 1]) && NotOlder(stamps, source, outputs[|outputs| - 1]))
  }

  /** Outputs are fresh exactly when each of them exists and is not older than
      the source; in particular a single missing output makes them stale. */
  lemma {:induction false} FreshMeaning(stamps: map<Path, int>, source: Path, outputs: seq<Path>)
    requires source in stamps
    ensures Fresh(stamps, source, outputs) <==> forall i | 0 <= i < |outputs| :: NotOlder(stamps, source, outputs[i])
    decreases |outputs|
  {
    if outputs != [] {
      var front := outputs[..|outputs| - 1];
      FreshMeaning(stamps, source, front);
      assert forall i | 0 <= i < |front| :: front[i] == outputs[i];
    }
  }

  /** Outputs that are fresh for a source image stay fresh whatever the script
      writes afterwards: a rewritten output is newer than the untouched source. */
  lemma FreshPersists(d: Disk, e: Disk, source: Path, outputs: seq<Path>)
    requires Consistent(d) && Later(d, e)
    requires source.Source? && source in d.stamps
    requires Fresh(d.stamps, source, outputs)
    ensures source in e.stamps && Fresh(e.stamps, source, outputs)
  {
    FreshMeaning(d.stamps, source, outputs);
    FreshMeaning(e.stamps, source, outputs);
    assert e.stamps[source] == d.stamps[source];
    forall i | 0 <= i < |outputs|
      ensures NotOlder(e.stamps, source, outputs[i])
    {
      assert outputs[i] in d.stamps;
    }
  }

  /** The filesystem as mutable state: tools write files into it and the script
      queries existence and modification times. */
  class FileSystem {
    var stamps: map<Path, int>
    var clock: int

    constructor (stamps: map<Path, int>, clock: int)
      ensures State() == Disk(stamps, clock)
    {
      this.stamps := stamps;
      this.clock := clock;
    }

    function State(): Disk
      reads this
    {
      Disk(stamps, clock)
    }

    /** A successful tool invocation writes `p`, stamped with the current time. */
    method Produce(p: Path)
      modifies this
      ensures State() == Produced(old(State()), p)
    {
      stamps := stamps[p := clock];
      clock := clock + 1;
    }

    /** `up_to_date(source, outputs)`: true iff every output exists and none has
        a modification time before the source's. An empty sequence of outputs
        is up to date; a single missing output is not. */
    method UpToDate(source: Path, outputs: seq<Path>) returns (b: bool)
      requires source in stamps
      ensures b == Fresh(stamps, source, outputs)
      ensures (exists i | 0 <= i < |outputs| :: outputs[i] !in stamps) ==> !b
    {
      FreshMeaning(stamps, source, outputs);
      var sourceStamp := stamps[source];
      for i := 0 to |outputs|
        invariant forall j | 0 <= j < i :: NotOlder(stamps, source, outputs[j])
      {
        var out := outputs[i];
        if out !in stamps {
          return false;
        }
        if stamps[out] < sourceStamp {
          return false;
        }
      }
      return true;
    }
  }
}
