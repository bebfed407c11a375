/** Every way the script stops with a diagnostic. */
module Errors {
  import opened Files

  datatype Error =
    | InvalidWidths(raw: string)          // a non-blank `--widths` part is not an integer
    | NoValidWidths                       // no positive width remains
    | ProbeFailed(source: string)         // `sips -g pixelWidth` exited non-zero
    | PixelWidthMissing                   // its report has no `pixelWidth:` line
    | PixelWidthNotInteger(value: string) // the text after the colon is not an integer
    | EncoderFailed(output: Path)         // the tool writing `output` exited non-zero
    | NoImages                            // the input directory holds no JPEG or PNG file
}
