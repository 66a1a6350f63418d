/** The record `YdlOptions` and its `build()`, which turns a resolved download request into the
    option dictionary handed to the download library. */
module DataFormat {
  import opened Wrappers

  /** The progress callback placed in the option dictionary. The only callback the program ever
      installs is the bound method `DownloadThread._progress_hook`. */
  datatype Hook = DownloadThreadProgressHook

  /** The keys the option dictionary can hold; `Name()` is the literal key the library reads. */
  datatype OptKey =
    | Outtmpl | Quiet | NoPlaylist | FfmpegLocation | ProgressHooks
    | WriteSubtitles | SubtitlesLangs | SkipAutoSubtitle
    | SkipDownload | Format | ConcurrentFragmentDownloads
  {
    function Name(): string
    {
      match this
      case Outtmpl => "outtmpl"
      case Quiet => "quiet"
      case NoPlaylist => "noplaylist"
      case FfmpegLocation => "ffmpeg_location"
      case ProgressHooks => "progress_hooks"
      case WriteSubtitles => "writesubtitles"
      case SubtitlesLangs => "subtitleslangs"
      case SkipAutoSubtitle => "skip_auto_subtitle"
      case SkipDownload => "skip_download"
      case Format => "format"
      case ConcurrentFragmentDownloads => "concurrent_fragment_downloads"
    }
  }

  /** The values that occur in the option dictionary. */
  datatype OptValue =
    | Str(s: string)
    | Flag(b: bool)
    | Number(n: int)
    | StrList(items: seq<string>)
    | HookList(hooks: seq<Hook>)

  /** Output file name template of a normal download: title, height and extension. */
  const VideoTemplate := "%(title)s_%(height)sp.%(ext)s"
  /** Output file name template of a subtitle-only download: no height suffix. */
  const SubtitleTemplate := "%(title)s.%(ext)s"

  /** `os.path.join(dir, name)` on Windows (the program ships `ffmpeg.exe`) for a relative `name`
      without a drive: a backslash is put between the two unless `dir` is empty, already ends in a
      separator, or is a bare drive such as `C:`. */
  function PathJoin(dir: string, name: string): (r: string)
    ensures r == dir + name || r == dir + "\\" + name
    ensures r == dir + name <==>
      dir == [] || dir[|dir| - 1] == '\\' || dir[|dir| - 1] == '/' || (|dir| == 2 && dir[1] == ':')
  {
    if dir == [] || dir[|dir| - 1] == '\\' || dir[|dir| - 1] == '/' || (|dir| == 2 && dir[1] == ':')
    then dir + name
    else dir + "\\" + name
  }

  /** The entry `build()` gives key `k` for the record `y`, `None` when `k` is absent:
      - `outtmpl`, `quiet`, `noplaylist` and `ffmpeg_location` are always present; `quiet` is true,
        `noplaylist` negates `is_playlist`, `ffmpeg_location` is the tool path, and `outtmpl` joins
        the output directory with the template of the mode;
      - `progress_hooks` is present iff a hook is set, as the one-element list holding it;
      - `writesubtitles`, `subtitleslangs`, `skip_auto_subtitle` are present iff the valid language
        list is non-empty, and `subtitleslangs` is that list;
      - `skip_download` is present (and true) iff the download is subtitle-only;
      - `format` and `concurrent_fragment_downloads` are present iff it is not, and carry the
        requested format and fragment count. */
  function Entry(y: YdlOptions, k: OptKey): Option<OptValue>
  {
    match k
    case Outtmpl => Some(Str(PathJoin(y.outDir, if y.subtitleOnly then SubtitleTemplate else VideoTemplate)))
    case Quiet => Some(Flag(true))
    case NoPlaylist => Some(Flag(!y.isPlaylist))
    case FfmpegLocation => Some(Str(y.ffmpegPath))
    case ProgressHooks => if y.progressHook.Some? then Some(HookList([y.progressHook.value])) else None
    case WriteSubtitles => if y.validLangs != [] then Some(Flag(true)) else None
    case SubtitlesLangs => if y.validLangs != [] then Some(StrList(y.validLangs)) else None
    case SkipAutoSubtitle => if y.validLangs != [] then Some(Flag(true)) else None
    case SkipDownload => if y.subtitleOnly then Some(Flag(true)) else None
    case Format => if y.subtitleOnly then None else Some(Str(y.fmt))
    case ConcurrentFragmentDownloads => if y.subtitleOnly then None else Some(Number(y.maxFragments))
  }

  /** Python's `m.get(k)`. */
  function Lookup(m: map<OptKey, OptValue>, k: OptKey): Option<OptValue>
  {
    if k in m then Some(m[k]) else None
  }

  /** `m` is the option dictionary that `build()` produces for `y`: every key holds `Entry(y, k)`. */
  ghost predicate Configures(y: YdlOptions, m: map<OptKey, OptValue>)
  {
    forall k :: Lookup(m, k) == Entry(y, k)
  }

  /** A resolved download request, as the worker thread builds it. */
  datatype YdlOptions = YdlOptions(
    outDir: string,
    ffmpegPath: string,
    isPlaylist: bool,
    fmt: string,
    maxFragments: int,
    subtitleOnly: bool := false,
    validLangs: seq<string> := [],
    progressHook: Option<Hook> := None)
  {
    /** `build()`: start from the four fixed entries and update the dictionary step by step. */
    method Build() returns (opts: map<OptKey, OptValue>)
      ensures Configures(this, opts)
    {
      opts := map[
        Outtmpl := Str(PathJoin(outDir, VideoTemplate)),
        Quiet := Flag(true),
        NoPlaylist := Flag(!isPlaylist),
        FfmpegLocation := Str(ffmpegPath)];

      if progressHook.Some? {
        opts := opts[ProgressHooks := HookList([progressHook.value])];
      }

      // subtitles exist
      if validLangs != [] {
        opts := opts[
          WriteSubtitles := Flag(true)][
          SubtitlesLangs := StrList(validLangs)][
          SkipAutoSubtitle := Flag(true)];
      }

      // subtitles only
      if subtitleOnly {
        opts := opts[
          SkipDownload := Flag(true)][
          Outtmpl := Str(PathJoin(outDir, SubtitleTemplate))];
      } else {
        opts := opts[
          Format := Str(fmt)][
          ConcurrentFragmentDownloads := Number(maxFragments)];
      }
      forall k
        ensures Lookup(opts, k) == Entry(this, k)
      {
      }
    }
  }

  /** `build()` reads its record and nothing else: two dictionaries built from the same record are equal. */
  lemma ConfiguresUnique(y: YdlOptions, m1: map<OptKey, OptValue>, m2: map<OptKey, OptValue>)
    requires Configures(y, m1) && Configures(y, m2)
    ensures m1 == m2
  {
    forall k
      ensures k in m1 <==> k in m2
      ensures k in m1 ==> m1[k] == m2[k]
    {
      assert Lookup(m1, k) == Entry(y, k) == Lookup(m2, k);
    }
  }

  /** The key rules of `build()`, read off any dictionary it produces: the fixed entries, the hook,
      the subtitle entries, and the two modes. */
  lemma ConfiguredKeys(y: YdlOptions, m: map<OptKey, OptValue>)
    requires Configures(y, m)
    ensures Quiet in m && m[Quiet] == Flag(true)
    ensures FfmpegLocation in m && m[FfmpegLocation] == Str(y.ffmpegPath)
    ensures NoPlaylist in m && m[NoPlaylist] == Flag(!y.isPlaylist)
    ensures ProgressHooks in m <==> y.progressHook.Some?
    ensures ProgressHooks in m ==> m[ProgressHooks] == HookList([y.progressHook.value])
    ensures (WriteSubtitles in m <==> y.validLangs != []) && (SkipAutoSubtitle in m <==> y.validLangs != [])
    ensures SubtitlesLangs in m <==> y.validLangs != []
    ensures SubtitlesLangs in m ==> m[SubtitlesLangs] == StrList(y.validLangs)
    ensures y.subtitleOnly ==>
      && SkipDownload in m && m[SkipDownload] == Flag(true)
      && Outtmpl in m && m[Outtmpl] == Str(PathJoin(y.outDir, SubtitleTemplate))
      && Format !in m && ConcurrentFragmentDownloads !in m
    ensures !y.subtitleOnly ==>
      && Format in m && m[Format] == Str(y.fmt)
      && ConcurrentFragmentDownloads in m && m[ConcurrentFragmentDownloads] == Number(y.maxFragments)
      && Outtmpl in m && m[Outtmpl] == Str(PathJoin(y.outDir, VideoTemplate))
      && SkipDownload !in m
  {
    assert Lookup(m, Quiet) == Entry(y, Quiet);
    assert Lookup(m, FfmpegLocation) == Entry(y, FfmpegLocation);
    assert Lookup(m, NoPlaylist) == Entry(y, NoPlaylist);
    assert Lookup(m, ProgressHooks) == Entry(y, ProgressHooks);
    assert Lookup(m, WriteSubtitles) == Entry(y, WriteSubtitles);
    assert Lookup(m, SkipAutoSubtitle) == Entry(y, SkipAutoSubtitle);
    assert Lookup(m, SubtitlesLangs) == Entry(y, SubtitlesLangs);
    assert Lookup(m, SkipDownload) == Entry(y, SkipDownload);
    assert Lookup(m, Outtmpl) == Entry(y, Outtmpl);
    assert Lookup(m, Format) == Entry(y, Format);
    assert Lookup(m, ConcurrentFragmentDownloads) == Entry(y, ConcurrentFragmentDownloads);
  }
}
