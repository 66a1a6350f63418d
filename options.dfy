/** The download request the GUI hands to the worker thread (`OptionsUI`, a plain record). */
module DownloadOptions {

  /** One download request. `container` is carried but read by nothing in the core. */
  datatype OptionsUI = OptionsUI(
    url: string,
    format: string,
    container: string,
    maxFragments: int,
    outputPath: string,
    subtitleLangs: seq<string> := [],
    subtitleOnly: bool := false,
    subtitleEnabled: bool := false)
}
