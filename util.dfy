/** The static helpers of class `Util`: the playlist test on a URL, the type/title classifier for a
    progress report, and the filter that keeps the requested subtitle languages the video offers. */
module Util {
  import opened Wrappers
  import opened Text

  // ---------------------------------------------------------------------------
  // Progress reports from the download library
  // ---------------------------------------------------------------------------

  /** The `info_dict` of a progress report. A missing or `None` entry is `None`; a missing, `None`
      or empty `info_dict` is `InfoDict()`. */
  datatype InfoDict = InfoDict(ext: Option<string> := None, title: Option<string> := None)

  /** One progress report passed to the hook. A missing `_percent_str` or `filename` is "". */
  datatype HookDict = HookDict(
    status: string,
    percentStr: string := "",
    info: InfoDict := InfoDict(),
    filename: string := "")

  const SubtitleKind := "자막"
  const UnknownKind := "알 수 없음"
  const VideoKind := "영상"
  /** The placeholder title of a video whose title or extension is unknown. */
  const UnknownVideo := "알 수 없는 영상"
  /** Display titles longer than this get one line break after this many characters. */
  const MaxTitleLength := 50

  // ---------------------------------------------------------------------------
  // is_playlist
  // ---------------------------------------------------------------------------

  const PlaylistMarker := "playlist"

  /** A URL names a playlist iff the text "playlist" occurs in it. */
  function IsPlaylist(url: string): (r: bool)
    ensures r <==> exists i :: OccursAt(url, PlaylistMarker, i)
  {
    Contains(url, PlaylistMarker)
  }

  /** A playlist URL is recognised wherever the marker stands, and a watch URL is not a playlist. */
  lemma {:induction false} PlaylistExamples()
    ensures IsPlaylist("https://x/playlist?list=abc")
    ensures !IsPlaylist("https://x/watch?v=abc")
  {
    assert OccursAt("https://x/playlist?list=abc", PlaylistMarker, 10);
    var watch := "https://x/watch?v=abc";
    assert PlaylistMarker[3] == 'y' && 'y' !in watch;
    AbsentCharNoOccurrence(watch, PlaylistMarker, 3);
  }

  // ---------------------------------------------------------------------------
  // parse_download_type_title
  // ---------------------------------------------------------------------------

  /** A display title longer than 50 characters gets a single line break after its 50th character. */
  function BreakLongLine(text: string): (r: string)
    ensures |text| <= MaxTitleLength ==> r == text
    ensures |text| > MaxTitleLength ==>
      && |r| == |text| + 1
      && r[MaxTitleLength] == '\n'
      && r[..MaxTitleLength] + r[MaxTitleLength + 1..] == text
  {
    if |text| > MaxTitleLength then
      var r := text[..MaxTitleLength] + "\n" + text[MaxTitleLength..];
      assert r[..MaxTitleLength] == text[..MaxTitleLength];
      assert r[MaxTitleLength + 1..] == text[MaxTitleLength..];
      assert text == text[..MaxTitleLength] + text[MaxTitleLength..];
      r
    else
      text
  }

  /** The report concerns a subtitle file: its extension is "vtt" or its file name ends in ".vtt". */
  predicate IsSubtitleReport(d: HookDict): (r: bool)
    ensures r <==> d.info.ext == Some("vtt") || (|d.filename| >= 4 && d.filename[|d.filename| - 4..] == ".vtt")
  {
    d.info.ext == Some("vtt") || EndsWith(d.filename, ".vtt")
  }

  /** `stem` starts the last component of `filename`, at `i`, and is all of it or what precedes the
      component's last dot. */
  predicate LastComponentStemAt(filename: string, stem: string, i: int)
  {
    && OccursAt(filename, stem, i)
    && (i == 0 || filename[i - 1] == '\\')
    && '\\' !in filename[i..]
    && (i + |stem| == |filename| || filename[i + |stem|] == '.')
    // no dot after the stem's own dot, and none in the component when the stem is all of it
    && var dotFreeFrom := if i + |stem| == |filename| then i else i + |stem| + 1;
       forall j :: dotFreeFrom <= j < |filename| ==> filename[j] != '.'
  }

  /** `filename.split("\\")[-1].rsplit(".", 1)[0]`: the last path component without its extension. */
  function FileStem(filename: string): (r: string)
    ensures '\\' !in r
  {
    var base := AfterLast(filename, '\\');
    StemOfLastComponent(filename, base, BeforeLast(base, '.'));
    BeforeLast(base, '.')
  }

  /** The file stem is the last component of the file name with its final `.ext` removed: it starts
      where the last backslash-separated component starts, and it is that whole component exactly
      when the component has no dot, otherwise what precedes the component's last dot. */
  lemma {:induction false} FileStemOfLastComponent(filename: string)
    ensures LastComponentStemAt(filename, FileStem(filename), |filename| - |AfterLast(filename, '\\')|)
  {
    var base := AfterLast(filename, '\\');
    StemOfLastComponent(filename, base, BeforeLast(base, '.'));
  }

  /** A prefix of the last component that ends at the component's end or at its last dot. */
  lemma {:induction false} StemOfLastComponent(filename: string, base: string, stem: string)
    requires SuffixAfterLast(filename, '\\', base)
    requires PrefixBeforeLast(base, '.', stem)
    requires |stem| == |base| ==> '.' !in base
    ensures '\\' !in stem
    ensures LastComponentStemAt(filename, stem, |filename| - |base|)
  {
    var i := |filename| - |base|;
    assert filename[i..i + |stem|] == stem;
    forall j | 0 <= j < |stem|
      ensures stem[j] != '\\'
    {
      assert stem[j] == base[j];
    }
    var dotFreeFrom := if |stem| == |base| then i else i + |stem| + 1;
    forall j | dotFreeFrom <= j < |filename|
      ensures filename[j] != '.'
    {
      assert filename[j] == base[j - i];
    }
  }

  /** Returns (type, display title) for a progress report. */
  function ParseDownloadTypeTitle(d: HookDict): (r: (string, string))
    ensures IsSubtitleReport(d) ==> r.0 == SubtitleKind
    ensures |r.1| > MaxTitleLength ==> r.1[MaxTitleLength] == '\n'
  {
    var extension := d.info.ext;
    var title := d.info.title.GetOr(UnknownVideo);
    var filename := d.filename;
    var (downloadType, displayTitle) :=
      if IsSubtitleReport(d) then
        (SubtitleKind, FileStem(filename))
      else if extension.None? || extension.value == "" then
        (UnknownKind, UnknownVideo)
      else
        (VideoKind, title);
    (downloadType, BreakLongLine(displayTitle))
  }

  /** A subtitle report shows its file stem, a report without an extension the unknown-video
      placeholder, and any other report its title (the placeholder when it has none); the display
      title goes through `BreakLongLine` in the first and last case. */
  lemma ParseDownloadTypeTitleCases(d: HookDict)
    ensures var r := ParseDownloadTypeTitle(d);
      && (IsSubtitleReport(d) ==> r == (SubtitleKind, BreakLongLine(FileStem(d.filename))))
      && (!IsSubtitleReport(d) && (d.info.ext == None || d.info.ext == Some("")) ==>
            r == (UnknownKind, UnknownVideo))
      && (!IsSubtitleReport(d) && d.info.ext != None && d.info.ext != Some("") ==>
            r == (VideoKind, BreakLongLine(d.info.title.GetOr(UnknownVideo))))
  {
  }

  /** The type is one of the three, and which one is decided by the extension and file name alone. */
  lemma DownloadTypeCases(d: HookDict)
    ensures var kind := ParseDownloadTypeTitle(d).0;
      && (kind == SubtitleKind <==> IsSubtitleReport(d))
      && (kind == UnknownKind <==> !IsSubtitleReport(d) && (d.info.ext == None || d.info.ext == Some("")))
      && (kind == VideoKind <==> !IsSubtitleReport(d) && d.info.ext != None && d.info.ext != Some(""))
  {
    assert SubtitleKind[0] != UnknownKind[0] && SubtitleKind[0] != VideoKind[0] && UnknownKind[0] != VideoKind[0];
  }

  // ---------------------------------------------------------------------------
  // get_available_sub
  // ---------------------------------------------------------------------------

  /** `a` is `b` with some elements left out, the others kept in order. */
  ghost predicate IsSubsequence<T>(a: seq<T>, b: seq<T>)
    decreases |b|
  {
    a == [] || (b != [] && if a[0] == b[0] then IsSubsequence(a[1..], b[1..]) else IsSubsequence(a, b[1..]))
  }

  /** `[lang for lang in requested if lang in available]`: the requested languages the video has,
      in the requested order, duplicates kept. */
  function FilterAvailable(requested: seq<string>, available: set<string>): (r: seq<string>)
    ensures IsSubsequence(r, requested)
    ensures forall lang :: lang in r ==> lang in available
  {
    if requested == [] then
      []
    else
      var rest := FilterAvailable(requested[1..], available);
      if requested[0] in available then
        var r := [requested[0]] + rest;
        assert r[1..] == rest;
        r
      else
        assert rest != [] ==> rest[0] != requested[0] by {
          if rest != [] { assert rest[0] in rest; }
        }
        rest
  }

  /** Every available requested language is kept as often as it was requested, every other dropped. */
  lemma {:induction false} FilterAvailableCounts(requested: seq<string>, available: set<string>, lang: string)
    ensures multiset(FilterAvailable(requested, available))[lang]
      == if lang in available then multiset(requested)[lang] else 0
  {
    if requested != [] {
      FilterAvailableCounts(requested[1..], available, lang);
      assert requested == [requested[0]] + requested[1..];
    }
  }

  /** `get_available_sub`: `subtitles` is the set of subtitle languages the metadata query reported,
      `None` when the query failed in any way; a failure gives the empty list. */
  function GetAvailableSub(requested: seq<string>, subtitles: Option<set<string>>): (r: seq<string>)
    ensures subtitles.None? ==> r == []
    ensures subtitles.Some? ==> r == FilterAvailable(requested, subtitles.value)
  {
    match subtitles
    case None => []
    case Some(available) => FilterAvailable(requested, available)
  }
}
