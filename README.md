# Gallery image optimiser, modelled in Dafny

`scripts/optimize-gallery-images.py` generates responsive variants of the
gallery photographs of a static site. It takes every JPEG or PNG directly
inside an input directory, in name order. For each one it asks `sips` for the
pixel width and derives a set of target widths from `--widths`. For every
target width it writes `<stem>-<width>.jpg` with `sips`, then
`<stem>-<width>.webp` (`cwebp`) and `<stem>-<width>.avif` (`avifenc`) from
that JPEG. Work whose output is already no older than its input is skipped,
and the script prints how many widths it generated and how many it skipped.

The model covers the parts of the script that decide what happens:

- the parsing of `--widths`;
- the scan of the `sips` report for `pixelWidth:`;
- the choice of target widths;
- the freshness test `up_to_date`;
- the skip/generate loop of `optimize_one`, with its three guarded encoder steps;
- the source selection, sorting and totals of `main`.

Modules, one file each:

- `Common` (`common.dfy`): `Option` and `Result`.
- `Text` (`text.dfy`): the Python string operations the script relies on.
  - `str.strip`, `str.split`, `str.splitlines`;
  - `int()` and `str()` on integers;
  - ASCII `str.lower`;
  - string ordering.
- `Files` (`files.dfy`): the filesystem.
  - The `Disk` value: a map from paths to modification times, plus a clock that stamps newly written files.
  - The `FileSystem` class holding that state, with `UpToDate` (`up_to_date`) and `Produce` (a tool writing a file).
  - `pathlib`'s `stem` and `suffix`.
- `Errors` (`errors.dfy`): the ways a run can abort that the model covers. The missing input directory is not among them; see "Left out".
- `Widths` (`widths.dfy`): `parse_widths` and `target_widths`.
- `PixelWidth` (`probe.dfy`): the loop of `sips_get_pixel_width`.
- `Convert` (`convert.dfy`): `optimize_one`.
- `Gallery` (`gallery.dfy`): `main`.

Each loop of the script is an imperative method. Each such method is proved
equal to a specification function: `ParseWidths`, `ParsePixelWidth`,
`UpToDate`, `OptimizeWidth`, `OptimizeWidths`, `OptimizeOne`, `OptimizeBatch`
and `OptimizeGallery`. The properties are proved about those functions.

The external programs are described by a `Tools` value. It gives the text
`sips -g pixelWidth` prints for each source, where a missing entry means `sips`
fails. It also gives the set of outputs whose encoder exits with an error. A
successful encoder call writes its output stamped with the current clock. An
exception becomes an `Error` value that ends the run. The counts reached up to
that point are discarded, as Python discards them, while the files already
written stay on disk.

Three consequences of the source that the model keeps:

- Two sources whose stems are the same string, such as `a.jpg` and `a.png`,
  share their output files.
- `--overwrite` rewrites files that already exist.
- Stale outputs are rewritten in place.

The loop of `main` is specified by `BatchFrom`, which takes each source's
probe result (its `Plan`) as an argument. The probe reads only the `sips`
report and never the output directory, so the plans can be listed before the
loop. The method `OptimizeBatch` still probes each source inside the loop,
through `OptimizeOne`, and is proved to agree with that list.

## Model

| member | source | states |
|---|---|---|
| Text.TrimStartMeaning | scripts/optimize-gallery-images.py:110 | the leading cut of `strip` removes exactly the whitespace in front: what is left is a suffix of the part and starts with a non-space, and every character cut is whitespace |
| Text.TrimEndMeaning | scripts/optimize-gallery-images.py:110 | the trailing cut of `strip` removes exactly the whitespace at the end: what is left is a prefix and ends with a non-space, and every character cut is whitespace |
| Text.Strip | scripts/optimize-gallery-images.py:110 | `strip` never lengthens the part |
| Text.StripMeaning | scripts/optimize-gallery-images.py:110-111 | the stripped part has no whitespace at either end, and is empty (the `if not part` test) exactly when the part is all whitespace |
| Text.StripKeeps | scripts/optimize-gallery-images.py:110 | text without surrounding whitespace is left as it is |
| Text.StripIdempotent | scripts/optimize-gallery-images.py:132 | stripping twice is stripping once |
| Text.StripLeading | scripts/optimize-gallery-images.py:132 | indentation in front of a line does not change what `strip` gives |
| Text.StripPadded | scripts/optimize-gallery-images.py:132 | whitespace followed by text without surrounding whitespace strips to that text |
| Text.TrimStartLeading | scripts/optimize-gallery-images.py:132 | leading whitespace is cut along with any whitespace after it |
| Text.Split | scripts/optimize-gallery-images.py:109 | `split(",")` yields at least one part and no part contains a comma |
| Text.JoinSplit | scripts/optimize-gallery-images.py:109 | joining the parts with commas gives back the raw option text |
| Text.SplitAfterPart | scripts/optimize-gallery-images.py:109 | comma-free text in front of a string joins its first part |
| Text.SplitJoin | scripts/optimize-gallery-images.py:109 | splitting a comma-join of comma-free parts gives back those parts |
| Text.LineEnd | scripts/optimize-gallery-images.py:131 | the first line ends at a line boundary, or at the end of the text |
| Text.LineEndIsFirst | scripts/optimize-gallery-images.py:131 | no line boundary comes before the end of the first line |
| Text.SplitLines | scripts/optimize-gallery-images.py:131 | `splitlines()` yields no more lines than the text has characters, and no lines exactly for empty text; `SplitLinesMeaning` adds that no line holds a boundary |
| Text.SplitLinesMeaning | scripts/optimize-gallery-images.py:131 | `splitlines()` yields lines without line boundaries, and yields no lines exactly for empty text |
| Text.FirstLineIsSingle | scripts/optimize-gallery-images.py:131 | the first line holds no line boundary |
| Text.SingleLinesCons | scripts/optimize-gallery-images.py:131 | a line without boundaries in front of such lines keeps them all free of boundaries |
| Text.SplitLinesCons | scripts/optimize-gallery-images.py:131 | a line without boundaries followed by a newline is split off whole |
| Text.SplitLinesJoinLines | scripts/optimize-gallery-images.py:131 | splitting newline-terminated lines without boundaries gives back those lines |
| Text.SplitTwoLines | scripts/optimize-gallery-images.py:131 | two newline-terminated lines split into exactly those two lines |
| Text.LowerChar | scripts/optimize-gallery-images.py:258 | lower-casing leaves no ASCII capital, and gives a lower-case letter only from a letter |
| Text.Lower | scripts/optimize-gallery-images.py:258 | `lower()` keeps the length |
| Text.LowerFolds | scripts/optimize-gallery-images.py:258 | `lower()` works character by character, leaves no ASCII capital and keeps every other character |
| Text.PyInt | scripts/optimize-gallery-images.py:114 | `int()` gives a value only for text that is not blank |
| Text.IntLiteral | scripts/optimize-gallery-images.py:114 | a text `int()` accepts starts with a digit or a sign and ends with a digit |
| Text.DigitChar | scripts/optimize-gallery-images.py:134 | each digit value has its decimal digit character |
| Text.NatDecimal | scripts/optimize-gallery-images.py:134 | `str()` of a natural number is a non-empty run of digits |
| Text.NatDecimalValue | scripts/optimize-gallery-images.py:134 | the digits of `str(n)` read back as n |
| Text.DecimalLiteral | scripts/optimize-gallery-images.py:134 | `str(n)` is an integer literal whose value is n, sign included |
| Text.DecimalRoundTrip | scripts/optimize-gallery-images.py:134 | `int(str(n)) == n` for every integer |
| Text.LexLe | scripts/optimize-gallery-images.py:257 | the order `sorted` uses on names puts a name before every name it is a prefix of; `LexLeTotal` and `LexLeTransitive` make it a total preorder |
| Text.LexLeTotal | scripts/optimize-gallery-images.py:257-259 | any two names are ordered one way or the other |
| Text.LexLeTransitive | scripts/optimize-gallery-images.py:257-259 | the name order is transitive |
| Files.LastDot | scripts/optimize-gallery-images.py:258 | the last dot of a name is at -1 (none) or inside the name |
| Files.LastDotIsLast | scripts/optimize-gallery-images.py:258 | `rfind(".")` finds a dot, and no dot comes after it |
| Files.Suffix | scripts/optimize-gallery-images.py:258 | `suffix` is empty, or a dot followed by at least one character |
| Files.Stem | scripts/optimize-gallery-images.py:182 | the stem of a non-empty name is non-empty |
| Files.StemSuffix | scripts/optimize-gallery-images.py:182 | `suffix` is empty or a dot followed by dot-free text, and `stem` followed by `suffix` is the file name |
| Files.Produced | scripts/optimize-gallery-images.py:159-160 | a tool run stamps its output with the current time and moves the clock past it |
| Files.LaterTransitive | scripts/optimize-gallery-images.py:159-160 | one state of the disk following another is transitive |
| Files.ProducedIsLater | scripts/optimize-gallery-images.py:159-160 | writing an output deletes nothing, leaves the sources untouched, stamps only at or after the clock and keeps every stamp before the clock |
| Files.FreshMeaning | scripts/optimize-gallery-images.py:145-152 | `up_to_date` holds exactly when every output exists and is not older than the source |
| Files.FreshPersists | scripts/optimize-gallery-images.py:145-152 | outputs that are up to date stay up to date whatever the script writes later |
| Files.Fresh | scripts/optimize-gallery-images.py:145-152 | the verdict of `up_to_date`, built up output by output; `FreshMeaning` states it in full |
| Files.FileSystem.Produce | scripts/optimize-gallery-images.py:159-160 | the filesystem afterwards is the disk with the output written |
| Files.FileSystem.UpToDate | scripts/optimize-gallery-images.py:145-152 | the loop returns the verdict `Fresh` defines; one missing output makes it false |
| Widths.Insert | scripts/optimize-gallery-images.py:118 | inserting a value into a strictly ascending list keeps it strictly ascending and adds exactly that value |
| Widths.SortedDistinct | scripts/optimize-gallery-images.py:118 | `sorted(set(...))` is strictly ascending, has the same elements and is no longer |
| Widths.InsertLength | scripts/optimize-gallery-images.py:118 | insertion adds at most one element |
| Widths.SortedDistinctShort | scripts/optimize-gallery-images.py:118 | the sorted set is never longer than the values it came from |
| Widths.AscendingUnique | scripts/optimize-gallery-images.py:118 | two strictly ascending lists with the same elements are equal, so the result is determined by its elements |
| Widths.EmptyTogether | scripts/optimize-gallery-images.py:119 | lists with the same elements are empty together |
| Widths.UnparsableSnoc | scripts/optimize-gallery-images.py:109-116 | a further part makes the loop fail exactly when it is non-blank and not an integer, or an earlier part already did |
| Widths.MentionsSnoc | scripts/optimize-gallery-images.py:109-116 | a further part adds exactly its own integer, when it is non-blank |
| Widths.Positive | scripts/optimize-gallery-images.py:118 | the filter `w > 0` keeps exactly the positive values |
| Widths.ParsedValues | scripts/optimize-gallery-images.py:108-116 | the loop collects at most one value per part |
| Widths.ParsedValuesMeaning | scripts/optimize-gallery-images.py:108-116 | the loop fails exactly when a non-blank part is not an integer, and otherwise collects exactly the integers of the non-blank parts |
| Widths.ParsedValuesStep | scripts/optimize-gallery-images.py:109-116 | one iteration skips a blank part, fails on a part that is not an integer, and otherwise appends its value |
| Widths.WidthsOf | scripts/optimize-gallery-images.py:107-121 | a success is non-empty, strictly ascending and positive; the only errors are "invalid --widths value" with the raw text and "no valid widths" |
| Widths.WidthsOfMeaning | scripts/optimize-gallery-images.py:107-121 | a success holds exactly the positive integers written in non-blank parts; a non-integer part fails with the raw text; otherwise, no positive value fails with "no valid widths" |
| Widths.ParseWidths | scripts/optimize-gallery-images.py:107-121 | the loop, filter, sort and emptiness check compute `WidthsOf` |
| Widths.Max | scripts/optimize-gallery-images.py:139 | `max` is an element no smaller than any other |
| Widths.MaxOfAscending | scripts/optimize-gallery-images.py:139 | the maximum of an ascending list is its last element |
| Widths.Below | scripts/optimize-gallery-images.py:140 | the comprehension keeps exactly the requested widths below the image width |
| Widths.TargetWidths | scripts/optimize-gallery-images.py:138-142 | the result is non-empty and strictly ascending, and its last width is `min(original, max(requested))` |
| Widths.CappedTop | scripts/optimize-gallery-images.py:141-142 | when every kept width is at most the appended cap, the cap is the last width after sorting |
| Widths.LastIsLargest | scripts/optimize-gallery-images.py:142 | in a strictly ascending list the largest element is the last |
| Widths.TargetWidthsMeaning | scripts/optimize-gallery-images.py:138-142 | no width exceeds the image or the largest request, and a width is present exactly when it is that cap or a requested width below the image width |
| Widths.TargetWidthsOfLargeImage | scripts/optimize-gallery-images.py:138-142 | a 2000-pixel image with the default widths gets exactly 320, 640, 960 and 1600 |
| Widths.TargetWidthsOfSmallImage | scripts/optimize-gallery-images.py:138-142 | a 500-pixel image with the default widths gets 320 and 500 |
| PixelWidth.AfterFirst | scripts/optimize-gallery-images.py:134 | `split(":", 1)[1]` is shorter than the line |
| PixelWidth.AfterFirstMeaning | scripts/optimize-gallery-images.py:134 | `split(":", 1)[1]` is the text after the first colon: a suffix preceded by a colon with no colon before it |
| PixelWidth.AfterKey | scripts/optimize-gallery-images.py:133-134 | on a line starting with `pixelWidth:` the value is the text after that key |
| PixelWidth.LineValue | scripts/optimize-gallery-images.py:134 | a width line either gives an integer or fails with a not-an-integer error |
| PixelWidth.FirstWidth | scripts/optimize-gallery-images.py:131-135 | the scan fails only with "could not parse pixelWidth" or with a value that is not an integer |
| PixelWidth.FirstWidthMissing | scripts/optimize-gallery-images.py:131-135 | the scan fails with "could not parse pixelWidth" exactly when no line is a width line |
| PixelWidth.FirstWidthIsFirst | scripts/optimize-gallery-images.py:131-135 | the scan returns the value of the first width line, whatever follows it |
| PixelWidth.ParsePixelWidth | scripts/optimize-gallery-images.py:131-135 | the loop over the lines of the report computes `PixelWidthOf` |
| PixelWidth.PixelWidthOf | scripts/optimize-gallery-images.py:124-135 | `sips_get_pixel_width` on a report fails only with those two errors, and an empty report has no width line |
| PixelWidth.DecimalIsPlain | scripts/optimize-gallery-images.py:134 | `str(n)` is non-empty, has no surrounding whitespace and no line boundary |
| PixelWidth.StrippedWidthLine | scripts/optimize-gallery-images.py:132 | the indented width line of a report strips to the key, a space and the digits |
| PixelWidth.KeyedValue | scripts/optimize-gallery-images.py:134 | the value after the key of that line strips to the digits |
| PixelWidth.WidthLineValue | scripts/optimize-gallery-images.py:132-134 | the indented `pixelWidth: n` line of a report is a width line whose value is n |
| PixelWidth.SipsWidthLinePlain | scripts/optimize-gallery-images.py:131 | the width line holds no line boundary |
| PixelWidth.SipsReportLines | scripts/optimize-gallery-images.py:131 | the report splits into the path line and the width line |
| PixelWidth.SecondLineWidth | scripts/optimize-gallery-images.py:131-134 | a first line that is not a width line is passed over for the second |
| PixelWidth.SipsReport | scripts/optimize-gallery-images.py:124-135 | a report of the form `sips` prints (the path, then the indented width) yields that width |
| Convert.Outputs | scripts/optimize-gallery-images.py:182-185 | three distinct output files per width |
| Convert.NeedsRun | scripts/optimize-gallery-images.py:192-224 | the guard of each encoder call: `--overwrite`, a missing output, or an output older than its input; `Step` states what follows from it |
| Convert.Step | scripts/optimize-gallery-images.py:192-240 | a step that is not needed changes nothing; a needed step fails exactly when its encoder fails, with that encoder's error, and otherwise writes its output and nothing else, after the clock, leaving the input's stamp alone |
| Convert.StepIsLater | scripts/optimize-gallery-images.py:192-240 | a step moves the disk forward, and on a consistent disk its output ends up no older than its input |
| Convert.WidthOutcome | scripts/optimize-gallery-images.py:181-242 | a width is either generated or skipped, or fails with the error of one of its own encoders and counts nothing; `--overwrite` never skips; a skipped width writes nothing |
| Convert.WidthIsLater | scripts/optimize-gallery-images.py:181-242 | one width moves the disk forward and keeps it consistent |
| Convert.FreshWidthIsSkipped | scripts/optimize-gallery-images.py:187-189 | fresh outputs without `--overwrite` are skipped and no tool runs |
| Convert.GeneratedWidthRanATool | scripts/optimize-gallery-images.py:187-242 | a width counted as generated ran at least one encoder |
| Convert.WidthLeavesFresh | scripts/optimize-gallery-images.py:192-240 | after a width succeeds its three outputs are fresh with respect to the source |
| Convert.OverwriteRewritesWidth | scripts/optimize-gallery-images.py:192-240 | with `--overwrite` a successful width rewrites all three outputs |
| Convert.WidthsOutcome | scripts/optimize-gallery-images.py:178-244 | when the loop finishes, generated plus skipped is the number of widths, and never more before; `--overwrite` skips none |
| Convert.WidthsIsLater | scripts/optimize-gallery-images.py:181-242 | the loop moves the disk forward and keeps it consistent |
| Convert.WidthsAbort | scripts/optimize-gallery-images.py:181-242 | the first failing width ends the loop: later widths are never processed |
| Convert.WidthsNext | scripts/optimize-gallery-images.py:181-242 | one more width adds its counts and continues from the disk the earlier widths left |
| Convert.WidthsLeaveFresh | scripts/optimize-gallery-images.py:181-242 | after the loop finishes every width's outputs are fresh |
| Convert.RewrittenPersists | scripts/optimize-gallery-images.py:192-240 | rewritten outputs stay rewritten as the disk moves forward |
| Convert.OverwriteRewritesWidths | scripts/optimize-gallery-images.py:181-242 | with `--overwrite` a finished loop rewrites every output of every width |
| Convert.FreshWidthsAreSkipped | scripts/optimize-gallery-images.py:181-189 | when all outputs are fresh the loop writes nothing and skips every width |
| Convert.ImageWidths | scripts/optimize-gallery-images.py:175-176 | a source `sips` cannot probe fails; a success is non-empty and ascending |
| Convert.ImageWidthsMeaning | scripts/optimize-gallery-images.py:175-176 | the probe's error is the error of `optimize_one`; otherwise the widths are the target widths of the reported pixel width, the widest being `min(width, max(requested))` |
| Convert.ImageRun | scripts/optimize-gallery-images.py:175-244 | a missing source or a failed probe writes nothing and counts nothing; when no error occurs generated plus skipped is the number of target widths; `--overwrite` skips none |
| Convert.ImageOutcome | scripts/optimize-gallery-images.py:163-244 | a source `sips` has no report for fails with nothing written; when no error occurs the probe succeeded and generated plus skipped is its number of target widths; `--overwrite` skips none |
| Convert.ImageRunIsLater | scripts/optimize-gallery-images.py:175-244 | converting an image moves the disk forward and keeps it consistent |
| Convert.ImageLeavesSettled | scripts/optimize-gallery-images.py:175-244 | an image converted without error has all of its outputs fresh |
| Convert.SettledPersists | scripts/optimize-gallery-images.py:175-244 | converting later images keeps an earlier image's outputs fresh |
| Convert.SettledImageIsSkipped | scripts/optimize-gallery-images.py:175-244 | converting an image whose outputs are all fresh, without `--overwrite`, writes nothing and skips every width |
| Convert.ImageRunRewrites | scripts/optimize-gallery-images.py:181-242 | with `--overwrite` an image converted without error has every output of every width rewritten |
| Convert.ImageRewrittenPersists | scripts/optimize-gallery-images.py:192-240 | those rewritten outputs stay rewritten as the disk moves forward |
| Convert.RunStep | scripts/optimize-gallery-images.py:192-240 | the guarded encoder call on the filesystem does what `Step` says |
| Convert.OptimizeWidth | scripts/optimize-gallery-images.py:181-242 | one loop iteration on the filesystem does what `WidthOutcome` says |
| Convert.OptimizeWidths | scripts/optimize-gallery-images.py:178-244 | the width loop on the filesystem returns the counts and leaves the disk `WidthsOutcome` describes |
| Convert.OptimizeOne | scripts/optimize-gallery-images.py:163-244 | `optimize_one` returns the counts or the error, and leaves the disk `ImageRun` describes for its probe result |
| Gallery.InsertName | scripts/optimize-gallery-images.py:257-259 | insertion adds exactly one name |
| Gallery.InsertNameSorted | scripts/optimize-gallery-images.py:257-259 | insertion into sorted names keeps them sorted |
| Gallery.InsertNameAbove | scripts/optimize-gallery-images.py:257-259 | insertion keeps every name above a common lower bound |
| Gallery.SortNames | scripts/optimize-gallery-images.py:257-259 | `sorted` returns the same names, in order |
| Gallery.IsImage | scripts/optimize-gallery-images.py:258 | the filter of the comprehension: a regular file whose lower-cased suffix is `.jpg`, `.jpeg` or `.png`; `ImageNamesMeaning` states what it keeps |
| Gallery.ImageNames | scripts/optimize-gallery-images.py:258 | the comprehension keeps no more names than there are entries |
| Gallery.ImageNameCollected | scripts/optimize-gallery-images.py:258 | every entry that is a file with an image suffix is kept |
| Gallery.ImageNameListed | scripts/optimize-gallery-images.py:258 | every kept name belongs to such an entry |
| Gallery.ImageNamesMeaning | scripts/optimize-gallery-images.py:258 | a name is kept exactly when some entry with that name is a file with a `.jpg`, `.jpeg` or `.png` suffix in any case |
| Gallery.Sources | scripts/optimize-gallery-images.py:257-261 | fails with "no images" exactly when nothing is kept; otherwise the kept names, sorted |
| Gallery.SourcesMeaning | scripts/optimize-gallery-images.py:257-261 | fails exactly when no entry is an image file; otherwise holds exactly the names of the image files |
| Gallery.Plans | scripts/optimize-gallery-images.py:266-276 | one probe result per source |
| Gallery.PlansAt | scripts/optimize-gallery-images.py:266-276 | the plan of each source is what the probe of `optimize_one` gives for it |
| Gallery.BatchFrom | scripts/optimize-gallery-images.py:263-279 | when the loop finishes the totals add up to the widths planned for all sources; `--overwrite` skips none |
| Gallery.BatchIsLater | scripts/optimize-gallery-images.py:266-279 | the loop moves the disk forward and keeps it consistent |
| Gallery.BatchResumes | scripts/optimize-gallery-images.py:266-279 | the first failing source ends the run with its error and its disk; otherwise its counts join the totals and the run continues with the next source |
| Gallery.GalleryOutcome | scripts/optimize-gallery-images.py:247-283 | invalid widths abort before anything else, then an input without images, both with nothing written; `--overwrite` skips none |
| Gallery.AllSettledMeaning | scripts/optimize-gallery-images.py:266-279 | all sources from one on are settled exactly when each of them is |
| Gallery.BatchLeavesSettled | scripts/optimize-gallery-images.py:266-279 | after a run that finishes every source's outputs are fresh |
| Gallery.SettledBatchIsSkipped | scripts/optimize-gallery-images.py:266-279 | when every source's outputs are fresh, a run without `--overwrite` writes nothing and skips every planned width |
| Gallery.RerunSkipsEverything | scripts/optimize-gallery-images.py:247-283 | a second run without `--overwrite`, with nothing changed, generates nothing, writes nothing and skips exactly as many widths as the first run handled |
| Gallery.BatchRewritesAll | scripts/optimize-gallery-images.py:266-279 | with `--overwrite` a batch that finishes has rewritten every output of every planned width of every source |
| Gallery.OverwriteRewritesEverything | scripts/optimize-gallery-images.py:247-283 | a run with `--overwrite` that finishes has written every output of every target width of every source image during the run |
| Gallery.OptimizeGallery | scripts/optimize-gallery-images.py:247-283 | `main` returns the totals or the error, and leaves the disk `GalleryOutcome` describes |
| Gallery.OptimizeBatch | scripts/optimize-gallery-images.py:263-279 | the loop over the sources returns the accumulated totals or the error, and leaves the disk `BatchFrom` describes |
| Gallery.OptimizeNext | scripts/optimize-gallery-images.py:266-279 | one iteration: an error ends the run with the batch's final disk and error; otherwise the totals grow by the counts `optimize_one` returned |

## Left out

- Running the external programs is not modelled: `subprocess.run`, the command lines and the image data they produce. `Tools` gives what `sips` reports and which encoder calls fail.
- The quality and speed options (`--jpeg-quality`, `--webp-quality`, `--avif-quality`, `--avif-speed`) only reach the encoders' command lines, so they are not modelled.
- `parse_args`, `repo_root` and `resolve_path` are not modelled. The model starts from the raw `--widths` text, the `--overwrite` flag and the input directory's listing.
- `require_toolchain` and `_which` (the check for missing tools) are not modelled.
- `ensure_dir` is not modelled. The output directory is assumed to exist and to be distinct from the input directory, so outputs never become sources.
- The two `print` calls and all error message texts are left out. Errors are values. Each keeps only its own fields in `errors.dfy`: the raw `--widths` text, the source a probe failed on, the value text that is not an integer, or the output whose encoder failed. `PixelWidthMissing` does not keep the image path that the message carries.
- Modification times are integers. Floating-point times, timestamp granularity and other processes touching the files are not modelled.
- A tool's output is assumed to be stamped later than every file already on disk. This assumption is `Files.Consistent`, required by the freshness lemmas.
- A failing encoder is modelled as leaving the disk unchanged. A partially written output is not modelled.
- Text.PyInt: accepts ASCII digits, underscores between digits and a sign. Python's non-ASCII digits and its 4300-digit limit are not modelled.
- Text.Lower: folds ASCII letters only. For the suffix test this is exact, because no non-ASCII character lower-cases into `.jpg`, `.jpeg` or `.png`.
- Files.Suffix: follows the `pathlib` rule of Python up to 3.13, where a name ending in a dot has no suffix.
- Gallery.SortNames: sorts names rather than full paths. All sources share one parent directory, so the two orders agree.
- A source that is not on disk when its turn comes is modelled as `sips` failing on it, which is what the `check=True` call raises.
- Path names are compared exactly, character by character. Case-insensitive or normalisation-insensitive volumes, such as the default macOS volume, are not modelled. On such a volume `A.jpg` and `a.png` share `a-320.jpg`, and the script would skip widths the model generates.
- A missing or unreadable input directory is not modelled. There `iterdir()` raises `FileNotFoundError` (or another `OSError`), and the model starts from the listing instead.
- Whether a directory entry is a regular file (`is_file`, which follows symbolic links) is an input of the model.
- The `__main__` entry point and the process exit code are not modelled.
