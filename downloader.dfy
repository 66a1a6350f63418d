/** The worker thread `DownloadThread`: it resolves a request into `YdlOptions`, runs the download
    library with its progress hook, turns the hook's reports into progress signals, and maps the
    library's exceptions to an error message. The three Qt signals become one append-only log of
    `Signal` values; the library becomes its inputs (the reports it passes to the hook, the
    subtitle languages its metadata query finds, the exception it raises on its own). */
module Downloader {
  import opened Wrappers
  import opened Text
  import opened DownloadOptions
  import opened DataFormat
  import opened Util

  // ---------------------------------------------------------------------------
  // Messages
  // ---------------------------------------------------------------------------

  const AnalysingVideo := "영상 분석 중..."
  const DetectingPlaylist := "플레이리스트 감지 중..."
  const AvailableLanguagesPrefix := "자막 다운로드 가능 언어: "
  const NoSubtitlesSingle := "선택한 자막 언어는 제공되지 않습니다.\n다운로드 할 자막이 없어 다운로드를 종료합니다."
  const NoSubtitlesPlaylist := "다운로드할 자막이 없어 종료합니다."
  /** The message of the exception the hook raises once the thread is cancelled. */
  const CancelledByUser := "사용자에 의해 다운로드 취소됨."
  /** Any exception message containing this is reported as a cancellation. */
  const CancelMarker := "취소됨"
  const UserCancelled := "사용자가 다운로드를 취소했습니다."
  const ErrorPrefix := "다운로드 중 오류 발생: "
  const DownloadDone := "다운로드 완료 ✅"
  const FfmpegMissing := "⚠️ ffmpeg.exe를 찾을 수 없습니다.\n프로그램 폴더 내 'ffmpeg/ffmpeg.exe'가 존재해야 합니다."
  const DownloadingInfix := " 다운로드 중 : "
  const MergingInfix := " 병합 중... : "
  const FloatErrorPrefix := "could not convert string to float: "

  // ---------------------------------------------------------------------------
  // Signals, hook steps and the library's inputs
  // ---------------------------------------------------------------------------

  /** One emitted Qt signal: `progress_signal(percent, text)`, `finished_signal(message)` or
      `error_signal(message)`. */
  datatype Signal =
    | ProgressSignal(percent: real, text: string)
    | FinishedSignal(message: string)
    | ErrorSignal(message: string)

  /** How a call of the hook ends: it returns, or it raises an exception with this message. */
  datatype HookOutcome = Continue | Raise(message: string)

  /** What one call of the hook does: the signals it emits, the cancel flag afterwards, its outcome. */
  datatype HookStep = HookStep(emitted: seq<Signal>, canceled: bool, outcome: HookOutcome)

  /** One call of the hook by the library, with the GUI thread's `cancel()` placed in time:
      `cancelBefore` puts it before the call, `cancelBeforeStep == Some(p)` puts it in the pause
      before step `p` of the merge ramp of a "finished" report. */
  datatype HookCall = HookCall(d: HookDict, cancelBefore: bool := false, cancelBeforeStep: Option<int> := None)

  /** What `_download_single` or `_download_playlist` does: the signals it emits and the options it
      returns (`None`: nothing to download). */
  datatype Prepared = Prepared(emitted: seq<Signal>, ydl: Option<YdlOptions>)

  /** What the library's `download` does: the hook's signals, the cancel flag afterwards, and the
      message of the exception it ends with (`None`: it returned). */
  datatype DownloadTrace = DownloadTrace(emitted: seq<Signal>, canceled: bool, error: Option<string>)

  /** What `run` does: the signals it emits, the cancel flag afterwards, and the options it built and
      handed to the library (`None`: it returned before the download). */
  datatype RunTrace = RunTrace(emitted: seq<Signal>, canceled: bool, config: Option<YdlOptions>)

  // ---------------------------------------------------------------------------
  // _progress_hook
  // ---------------------------------------------------------------------------

  /** `d.get("_percent_str", "").replace("%", "").strip()` */
  function PercentText(raw: string): (r: string)
    ensures '%' !in r
    ensures r == [] || (!IsSpace(r[0]) && !IsSpace(r[|r| - 1]))
  {
    Strip(RemoveAll(raw, '%'))
  }

  /** `float(percent or 0)`: an empty text counts as 0; `None` where `float` raises. */
  function PercentValue(percent: string): (r: Option<real>)
    ensures percent == "" ==> r == Some(0.0)
    ensures r.Some? ==> r.value >= 0.0
  {
    if percent == "" then Some(0.0) else ParseFloat(percent)
  }

  /** The text of a "downloading" progress signal. */
  function DownloadingText(d: HookDict): string
  {
    var (kind, title) := ParseDownloadTypeTitle(d);
    kind + DownloadingInfix + title
  }

  /** The text of the merge ramp's progress signals. */
  function MergingText(d: HookDict): string
  {
    var (kind, title) := ParseDownloadTypeTitle(d);
    kind + MergingInfix + title
  }

  /** The progress signals lo, lo + 1, ..., hi - 1, all with the same text. */
  function Ramp(lo: int, hi: int, text: string): seq<Signal>
    requires lo <= hi
  {
    seq(hi - lo, i => ProgressSignal((lo + i) as real, text))
  }

  /** The ramp step at which a cancellation breaks the loop, 100 when none lands inside it. */
  function RampStop(cancelBeforeStep: Option<int>): (k: int)
    ensures 90 <= k <= 100
  {
    if cancelBeforeStep.Some? && 90 <= cancelBeforeStep.value < 100 then cancelBeforeStep.value else 100
  }

  /** What `_progress_hook(d)` does when entered with the cancel flag `canceled`. The source compares
      the percent text with the integer 100 (`percent == 100`), which never holds for a string, so
      no clamp to 98 is applied. The final 100 is emitted after the ramp even when it was broken. */
  function HookSpec(canceled: bool, d: HookDict, cancelBeforeStep: Option<int>): HookStep
  {
    if canceled then
      HookStep([], true, Raise(CancelledByUser))
    else if d.status == "downloading" then
      var percent := PercentText(d.percentStr);
      match PercentValue(percent)
      case Some(v) => HookStep([ProgressSignal(v, DownloadingText(d))], false, Continue)
      case None => HookStep([], false, Raise(FloatErrorPrefix + "'" + percent + "'"))
    else if d.status == "finished" then
      var stop := RampStop(cancelBeforeStep);
      var text := MergingText(d);
      HookStep(Ramp(90, stop, text) + [ProgressSignal(100.0, text)], stop < 100, Continue)
    else
      HookStep([], false, Continue)
  }

  /** One more step extends the ramp by that step's signal. */
  lemma RampSnoc(lo: int, hi: int, text: string)
    requires lo <= hi
    ensures Ramp(lo, hi + 1, text) == Ramp(lo, hi, text) + [ProgressSignal(hi as real, text)]
  {
    var a := Ramp(lo, hi + 1, text);
    var b := Ramp(lo, hi, text) + [ProgressSignal(hi as real, text)];
    assert |a| == |b|;
    forall i | 0 <= i < |a|
      ensures a[i] == b[i]
    {
    }
  }

  /** A hook entered after cancellation raises the cancellation exception and emits nothing; `run`
      reports that exception as the user's cancellation. */
  lemma CanceledHookRaises(d: HookDict, cancelBeforeStep: Option<int>)
    ensures HookSpec(true, d, cancelBeforeStep) == HookStep([], true, Raise(CancelledByUser))
    ensures Contains(CancelledByUser, CancelMarker)
    ensures ErrorMessageFor(CancelledByUser) == UserCancelled
  {
    assert OccursAt(CancelledByUser, CancelMarker, 13);
  }

  /** The percent text "n%" of a whole percentage reads back as n. */
  lemma {:induction false} WholePercentValue(n: nat)
    ensures PercentValue(PercentText(DecimalString(n) + "%")) == Some(n as real)
  {
    var digits := DecimalString(n);
    RemoveAllAppend(digits, "%", '%');
    assert '%' !in digits;
    assert RemoveAll("%", '%') == [];
    assert RemoveAll(digits + "%", '%') == digits;
    StripTrimmed(digits);
    ParseDecimalString(n);
  }

  /** The library's usual percent text "n.0%" of a whole percentage reads back as n. */
  lemma {:induction false} OneDecimalPercentValue(n: nat)
    ensures PercentValue(PercentText(DecimalString(n) + ".0%")) == Some(n as real)
  {
    var number := DecimalString(n) + ".0";
    assert DecimalString(n) + ".0%" == number + "%";
    RemoveAllAppend(number, "%", '%');
    assert '%' !in number by {
      assert number[|number| - 1] == '0' && number[|number| - 2] == '.';
    }
    assert RemoveAll("%", '%') == [];
    assert RemoveAll(number + "%", '%') == number;
    StripTrimmed(number);
    ParseDecimalPointZero(n);
  }

  /** A "downloading" report of a whole percentage n, written "n%" or "n.0%", emits one progress
      signal of exactly n; in particular "100%" and "100.0%" are emitted as 100.0. A report without
      a percentage emits 0. */
  lemma DownloadingHookEvent(d: HookDict, cancelBeforeStep: Option<int>, n: nat)
    requires d.status == "downloading"
    ensures d.percentStr == DecimalString(n) + "%" ==>
      HookSpec(false, d, cancelBeforeStep) == HookStep([ProgressSignal(n as real, DownloadingText(d))], false, Continue)
    ensures d.percentStr == DecimalString(n) + ".0%" ==>
      HookSpec(false, d, cancelBeforeStep) == HookStep([ProgressSignal(n as real, DownloadingText(d))], false, Continue)
    ensures d.percentStr == "" ==>
      HookSpec(false, d, cancelBeforeStep) == HookStep([ProgressSignal(0.0, DownloadingText(d))], false, Continue)
  {
    if d.percentStr == DecimalString(n) + "%" {
      WholePercentValue(n);
    } else if d.percentStr == DecimalString(n) + ".0%" {
      OneDecimalPercentValue(n);
    } else if d.percentStr == "" {
      assert PercentText("") == "";
    }
  }

  /** A "downloading" report whose percent text holds a character other than a digit or a point
      emits nothing and raises `float`'s `ValueError`. */
  lemma NonNumericPercentRaises(d: HookDict, cancelBeforeStep: Option<int>, k: int)
    requires d.status == "downloading"
    requires var p := PercentText(d.percentStr); 0 <= k < |p| && !IsDigit(p[k]) && p[k] != '.'
    ensures var p := PercentText(d.percentStr);
      HookSpec(false, d, cancelBeforeStep) == HookStep([], false, Raise(FloatErrorPrefix + "'" + p + "'"))
  {
    var p := PercentText(d.percentStr);
    if ParseFloat(p).Some? {
      ParseFloatCharacters(p);
    }
  }

  /** The "finished" report emits the ramp 90, 91, ... up to the step where a cancellation lands
      (all of 90..99 when none does), then 100; its percents strictly increase. */
  lemma FinishedHookEvents(d: HookDict, cancelBeforeStep: Option<int>)
    requires d.status == "finished"
    ensures var s := HookSpec(false, d, cancelBeforeStep);
      var stop := RampStop(cancelBeforeStep);
      && s.outcome == Continue
      && (s.canceled <==> stop < 100)
      && |s.emitted| == stop - 90 + 1
      && (forall i :: 0 <= i < |s.emitted| - 1 ==> s.emitted[i] == ProgressSignal((90 + i) as real, MergingText(d)))
      && s.emitted[|s.emitted| - 1] == ProgressSignal(100.0, MergingText(d))
      && (forall i, j :: 0 <= i < j < |s.emitted| ==> s.emitted[i].percent < s.emitted[j].percent)
    ensures cancelBeforeStep.None? ==> |HookSpec(false, d, cancelBeforeStep).emitted| == 11
  {
    var stop := RampStop(cancelBeforeStep);
    var text := MergingText(d);
    var s := HookSpec(false, d, cancelBeforeStep);
    assert s.emitted == Ramp(90, stop, text) + [ProgressSignal(100.0, text)];
    forall i | 0 <= i < |s.emitted|
      ensures s.emitted[i].ProgressSignal? && s.emitted[i].percent == if i < |s.emitted| - 1 then (90 + i) as real else 100.0
    {
    }
  }

  /** The hook emits only progress signals, and a set cancel flag stays set. */
  lemma HookOnlyProgress(canceled: bool, d: HookDict, cancelBeforeStep: Option<int>)
    ensures var s := HookSpec(canceled, d, cancelBeforeStep);
      AllProgress(s.emitted) && (canceled ==> s.canceled)
  {
    if !canceled && d.status == "downloading" {
      DownloadingOnlyProgress(d, cancelBeforeStep);
    } else if !canceled && d.status == "finished" {
      FinishedOnlyProgress(d, cancelBeforeStep);
    }
  }

  /** A "downloading" report emits at most its one progress signal. */
  lemma DownloadingOnlyProgress(d: HookDict, cancelBeforeStep: Option<int>)
    requires d.status == "downloading"
    ensures AllProgress(HookSpec(false, d, cancelBeforeStep).emitted)
  {
    var emitted := HookSpec(false, d, cancelBeforeStep).emitted;
    assert |emitted| <= 1 && forall i :: 0 <= i < |emitted| ==>
      emitted[i] == ProgressSignal(emitted[i].percent, DownloadingText(d));
  }

  /** A "finished" report emits the ramp and the final 100, all progress signals. */
  lemma FinishedOnlyProgress(d: HookDict, cancelBeforeStep: Option<int>)
    requires d.status == "finished"
    ensures AllProgress(HookSpec(false, d, cancelBeforeStep).emitted)
  {
    var text := MergingText(d);
    var ramp := Ramp(90, RampStop(cancelBeforeStep), text);
    assert AllProgress(ramp);
    AllProgressAppend(ramp, [ProgressSignal(100.0, text)]);
  }

  // ---------------------------------------------------------------------------
  // run: the library and the exception-to-message mapping
  // ---------------------------------------------------------------------------

  /** The message `run` emits on `error_signal` for an exception with message `e`: any message
      containing "취소됨" is reported as the user's cancellation, every other one as a download error
      quoting it. */
  function ErrorMessageFor(e: string): (r: string)
    ensures r == UserCancelled <==> Contains(e, CancelMarker)
    ensures !Contains(e, CancelMarker) ==> r == ErrorPrefix + e
  {
    if Contains(e, CancelMarker) then
      UserCancelled
    else
      assert (ErrorPrefix + e)[0] != UserCancelled[0];
      ErrorPrefix + e
  }

  /** The library's `download([url])`: it calls the hook once per report, in order, with the
      cancellation interleaved as each call says; an exception from the hook ends the download with
      that exception; otherwise the download ends with `libraryError` (`None`: success). */
  function DownloadSpec(canceled: bool, calls: seq<HookCall>, libraryError: Option<string>): DownloadTrace
    decreases |calls|
  {
    if calls == [] then
      DownloadTrace([], canceled, libraryError)
    else
      var step := HookSpec(canceled || calls[0].cancelBefore, calls[0].d, calls[0].cancelBeforeStep);
      if step.outcome.Raise? then
        DownloadTrace(step.emitted, step.canceled, Some(step.outcome.message))
      else
        var rest := DownloadSpec(step.canceled, calls[1..], libraryError);
        DownloadTrace(step.emitted + rest.emitted, rest.canceled, rest.error)
  }

  /** Every signal of `s` is a progress signal. */
  predicate AllProgress(s: seq<Signal>)
  {
    forall i :: 0 <= i < |s| ==> s[i].ProgressSignal?
  }

  lemma AllProgressAppend(a: seq<Signal>, b: seq<Signal>)
    requires AllProgress(a) && AllProgress(b)
    ensures AllProgress(a + b)
  {
    forall i | 0 <= i < |a + b|
      ensures (a + b)[i].ProgressSignal?
    {
      if i < |a| { assert (a + b)[i] == a[i]; } else { assert (a + b)[i] == b[i - |a|]; }
    }
  }

  /** During the download only progress signals are emitted, and a set cancel flag stays set. */
  lemma {:induction false} DownloadOnlyProgress(canceled: bool, calls: seq<HookCall>, libraryError: Option<string>)
    ensures var t := DownloadSpec(canceled, calls, libraryError);
      AllProgress(t.emitted) && (canceled ==> t.canceled)
    decreases |calls|
  {
    if calls != [] {
      var c := canceled || calls[0].cancelBefore;
      HookOnlyProgress(c, calls[0].d, calls[0].cancelBeforeStep);
      var step := HookSpec(c, calls[0].d, calls[0].cancelBeforeStep);
      if step.outcome.Continue? {
        DownloadOnlyProgress(step.canceled, calls[1..], libraryError);
        var rest := DownloadSpec(step.canceled, calls[1..], libraryError);
        AllProgressAppend(step.emitted, rest.emitted);
        assert DownloadSpec(canceled, calls, libraryError) == DownloadTrace(step.emitted + rest.emitted, rest.canceled, rest.error);
      } else {
        assert DownloadSpec(canceled, calls, libraryError) == DownloadTrace(step.emitted, step.canceled, Some(step.outcome.message));
      }
    }
  }

  /** One turn of the library's loop: the hook call at `i` either raises, which ends the download,
      or its signals join those already emitted and the download goes on from `i + 1`. */
  lemma DownloadLoopStep(
    canceled0: bool, calls: seq<HookCall>, libraryError: Option<string>,
    i: int, done: seq<Signal>, canceled: bool)
    requires 0 <= i < |calls|
    requires var cur := DownloadSpec(canceled, calls[i..], libraryError);
      DownloadSpec(canceled0, calls, libraryError) == DownloadTrace(done + cur.emitted, cur.canceled, cur.error)
    ensures var step := HookSpec(canceled || calls[i].cancelBefore, calls[i].d, calls[i].cancelBeforeStep);
      var t := DownloadSpec(canceled0, calls, libraryError);
      && (step.outcome.Raise? ==>
            t == DownloadTrace(done + step.emitted, step.canceled, Some(step.outcome.message)))
      && (step.outcome.Continue? ==>
            var rest := DownloadSpec(step.canceled, calls[i + 1..], libraryError);
            t == DownloadTrace((done + step.emitted) + rest.emitted, rest.canceled, rest.error))
  {
    assert calls[i..][0] == calls[i] && calls[i..][1..] == calls[i + 1..];
    var step := HookSpec(canceled || calls[i].cancelBefore, calls[i].d, calls[i].cancelBeforeStep);
    if step.outcome.Continue? {
      var rest := DownloadSpec(step.canceled, calls[i + 1..], libraryError);
      AppendAssoc(done, step.emitted, rest.emitted);
    }
  }

  lemma AppendAssoc(a: seq<Signal>, b: seq<Signal>, c: seq<Signal>)
    ensures (a + b) + c == a + (b + c)
  {
  }

  /** The signal that ends a download that got as far as the library. */
  function Terminal(error: Option<string>): Signal
  {
    if error.None? then FinishedSignal(DownloadDone) else ErrorSignal(ErrorMessageFor(error.value))
  }

  /** The options both preparations return: the request's fields passed through unchanged. */
  function RequestOptions(o: OptionsUI, ffmpegPath: string, isPlaylist: bool, validLangs: seq<string>): YdlOptions
  {
    YdlOptions(
      outDir := o.outputPath,
      ffmpegPath := ffmpegPath,
      isPlaylist := isPlaylist,
      fmt := o.format,
      maxFragments := o.maxFragments,
      subtitleOnly := o.subtitleOnly,
      validLangs := validLangs,
      progressHook := Some(DownloadThreadProgressHook))
  }

  /** `y` carries the request's output path, format, fragment count and subtitle-only flag unchanged,
      the tool path it was given, and the thread's progress hook. */
  predicate PassesThrough(y: YdlOptions, o: OptionsUI, ffmpegPath: string)
  {
    && y.outDir == o.outputPath
    && y.ffmpegPath == ffmpegPath
    && y.fmt == o.format
    && y.maxFragments == o.maxFragments
    && y.subtitleOnly == o.subtitleOnly
    && y.progressHook == Some(DownloadThreadProgressHook)
  }

  /** `_download_single`: the requested languages are checked against those the video offers. */
  function SingleSpec(o: OptionsUI, ffmpegPath: string, subtitles: Option<set<string>>): Prepared
  {
    var first := ProgressSignal(0.0, AnalysingVideo);
    if o.subtitleEnabled then
      var validLangs := GetAvailableSub(o.subtitleLangs, subtitles);
      if validLangs == [] && o.subtitleOnly then
        Prepared([first, FinishedSignal(NoSubtitlesSingle)], None)
      else
        Prepared([first, ProgressSignal(0.0, AvailableLanguagesPrefix + Join(validLangs, ", "))],
                 Some(RequestOptions(o, ffmpegPath, false, validLangs)))
    else
      Prepared([first], Some(RequestOptions(o, ffmpegPath, false, [])))
  }

  /** `_download_playlist`: the requested languages are used as they are, unchecked. */
  function PlaylistSpec(o: OptionsUI, ffmpegPath: string): Prepared
  {
    var first := ProgressSignal(0.0, DetectingPlaylist);
    if o.subtitleEnabled then
      if o.subtitleLangs == [] && o.subtitleOnly then
        Prepared([first, FinishedSignal(NoSubtitlesPlaylist)], None)
      else
        Prepared([first], Some(RequestOptions(o, ffmpegPath, true, o.subtitleLangs)))
    else
      Prepared([first], Some(RequestOptions(o, ffmpegPath, true, [])))
  }

  /** `run`, given the tool path (`""` when ffmpeg.exe is missing), the library's hook calls, the
      metadata query's subtitle languages and the library's own exception. */
  function RunSpec(
    o: OptionsUI, canceled: bool, ffmpegPath: string, calls: seq<HookCall>,
    subtitles: Option<set<string>>, libraryError: Option<string>): RunTrace
  {
    if ffmpegPath == "" then
      RunTrace([ErrorSignal(FfmpegMissing)], canceled, None)
    else
      var p := if IsPlaylist(o.url) then PlaylistSpec(o, ffmpegPath) else SingleSpec(o, ffmpegPath, subtitles);
      if p.ydl.None? then
        RunTrace(p.emitted, canceled, None)
      else
        var dl := DownloadSpec(canceled, calls, libraryError);
        RunTrace(p.emitted + dl.emitted + [Terminal(dl.error)], dl.canceled, p.ydl)
  }

  /** `_download_single` stops early exactly for a subtitle-only request none of whose languages the
      video offers; otherwise it passes the request through as a single-video download whose
      languages are the available requested ones (none when subtitles are off). */
  lemma SinglePrepared(o: OptionsUI, ffmpegPath: string, subtitles: Option<set<string>>)
    ensures var p := SingleSpec(o, ffmpegPath, subtitles);
      var validLangs := if o.subtitleEnabled then GetAvailableSub(o.subtitleLangs, subtitles) else [];
      && (p.ydl.None? <==> o.subtitleEnabled && o.subtitleOnly && validLangs == [])
      && (p.ydl.None? ==> p.emitted == [ProgressSignal(0.0, AnalysingVideo), FinishedSignal(NoSubtitlesSingle)])
      && (p.ydl.Some? ==>
            && PassesThrough(p.ydl.value, o, ffmpegPath)
            && !p.ydl.value.isPlaylist
            && p.ydl.value.validLangs == validLangs
            && forall i :: 0 <= i < |p.emitted| ==> p.emitted[i].ProgressSignal? && p.emitted[i].percent == 0.0)
      && (forall lang :: lang in validLangs ==> lang in o.subtitleLangs)
  {
    if o.subtitleEnabled && subtitles.Some? {
      var validLangs := GetAvailableSub(o.subtitleLangs, subtitles);
      forall lang | lang in validLangs
        ensures lang in o.subtitleLangs
      {
        FilterAvailableCounts(o.subtitleLangs, subtitles.value, lang);
        assert multiset(validLangs)[lang] > 0;
      }
    }
  }

  /** `_download_playlist` stops early exactly for a subtitle-only request with no languages;
      otherwise it passes the request through as a playlist download whose languages are the
      requested ones verbatim (none when subtitles are off). */
  lemma PlaylistPrepared(o: OptionsUI, ffmpegPath: string)
    ensures var p := PlaylistSpec(o, ffmpegPath);
      var validLangs := if o.subtitleEnabled then o.subtitleLangs else [];
      && (p.ydl.None? <==> o.subtitleEnabled && o.subtitleOnly && o.subtitleLangs == [])
      && (p.ydl.None? ==> p.emitted == [ProgressSignal(0.0, DetectingPlaylist), FinishedSignal(NoSubtitlesPlaylist)])
      && (p.ydl.Some? ==>
            && PassesThrough(p.ydl.value, o, ffmpegPath)
            && p.ydl.value.isPlaylist
            && p.ydl.value.validLangs == validLangs
            && p.emitted == [ProgressSignal(0.0, DetectingPlaylist)])
  {
  }

  /** Every run emits exactly one signal that is not a progress signal, and it is the last one. */
  lemma RunEndsWithOneTerminal(
    o: OptionsUI, canceled: bool, ffmpegPath: string, calls: seq<HookCall>,
    subtitles: Option<set<string>>, libraryError: Option<string>)
    ensures var t := RunSpec(o, canceled, ffmpegPath, calls, subtitles, libraryError);
      && |t.emitted| >= 1
      && !t.emitted[|t.emitted| - 1].ProgressSignal?
      && AllProgress(t.emitted[..|t.emitted| - 1])
  {
    if ffmpegPath != "" {
      var p := if IsPlaylist(o.url) then PlaylistSpec(o, ffmpegPath) else SingleSpec(o, ffmpegPath, subtitles);
      if p.ydl.Some? {
        SinglePrepared(o, ffmpegPath, subtitles);
        PlaylistPrepared(o, ffmpegPath);
        assert AllProgress(p.emitted);
        DownloadOnlyProgress(canceled, calls, libraryError);
        var dl := DownloadSpec(canceled, calls, libraryError);
        AllProgressAppend(p.emitted, dl.emitted);
        var all := p.emitted + dl.emitted + [Terminal(dl.error)];
        assert all[..|all| - 1] == p.emitted + dl.emitted;
        assert RunSpec(o, canceled, ffmpegPath, calls, subtitles, libraryError).emitted == all;
      }
    }
  }

  /** A run that reaches the library ends with "다운로드 완료 ✅" iff the download raised nothing,
      with the cancellation message iff it raised an exception mentioning "취소됨", and otherwise
      with the error message quoting the exception. */
  lemma RunTerminal(
    o: OptionsUI, canceled: bool, ffmpegPath: string, calls: seq<HookCall>,
    subtitles: Option<set<string>>, libraryError: Option<string>)
    requires RunSpec(o, canceled, ffmpegPath, calls, subtitles, libraryError).config.Some?
    ensures var t := RunSpec(o, canceled, ffmpegPath, calls, subtitles, libraryError);
      var err := DownloadSpec(canceled, calls, libraryError).error;
      var last := t.emitted[|t.emitted| - 1];
      && (last == FinishedSignal(DownloadDone) <==> err.None?)
      && (last == ErrorSignal(UserCancelled) <==> err.Some? && Contains(err.value, CancelMarker))
      && (err.Some? && !Contains(err.value, CancelMarker) ==> last == ErrorSignal(ErrorPrefix + err.value))
  {
  }

  /** A run cancelled before the library's first hook call emits only the preparation's notices
      (all of percent 0) and then the cancellation message. */
  lemma CancelBeforeAnyCallback(
    o: OptionsUI, canceled: bool, ffmpegPath: string, calls: seq<HookCall>,
    subtitles: Option<set<string>>, libraryError: Option<string>)
    requires calls != [] && (canceled || calls[0].cancelBefore)
    requires RunSpec(o, canceled, ffmpegPath, calls, subtitles, libraryError).config.Some?
    ensures var t := RunSpec(o, canceled, ffmpegPath, calls, subtitles, libraryError);
      && t.canceled
      && t.emitted[|t.emitted| - 1] == ErrorSignal(UserCancelled)
      && forall i :: 0 <= i < |t.emitted| - 1 ==> t.emitted[i].ProgressSignal? && t.emitted[i].percent == 0.0
  {
    CanceledHookRaises(calls[0].d, calls[0].cancelBeforeStep);
    SinglePrepared(o, ffmpegPath, subtitles);
    PlaylistPrepared(o, ffmpegPath);
  }

  /** A subtitle-enabled, subtitle-only request with no language to fetch (none of the requested
      ones offered by the video; none requested at all for a playlist) announces that there is
      nothing to download and hands no options to the library. */
  lemma NothingToDownload(
    o: OptionsUI, canceled: bool, ffmpegPath: string, calls: seq<HookCall>,
    subtitles: Option<set<string>>, libraryError: Option<string>)
    requires ffmpegPath != "" && o.subtitleEnabled && o.subtitleOnly
    requires if IsPlaylist(o.url) then o.subtitleLangs == [] else GetAvailableSub(o.subtitleLangs, subtitles) == []
    ensures var t := RunSpec(o, canceled, ffmpegPath, calls, subtitles, libraryError);
      && t.config.None?
      && t.canceled == canceled
      && t.emitted == if IsPlaylist(o.url)
                      then [ProgressSignal(0.0, DetectingPlaylist), FinishedSignal(NoSubtitlesPlaylist)]
                      else [ProgressSignal(0.0, AnalysingVideo), FinishedSignal(NoSubtitlesSingle)]
  {
  }

  // ---------------------------------------------------------------------------
  // The thread
  // ---------------------------------------------------------------------------

  class DownloadThread {
    /** The request this thread downloads. */
    const options: OptionsUI
    /** Set by `cancel()`, read by the hook. */
    var isCanceled: bool
    /** The signals emitted so far, oldest first. */
    var events: seq<Signal>

    constructor (options: OptionsUI)
      ensures this.options == options
      ensures !isCanceled && events == []
    {
      this.options := options;
      isCanceled := false;
      events := [];
    }

    /** `cancel()`: sets the flag and nothing else; a second call changes nothing. */
    method Cancel()
      modifies this
      ensures isCanceled
      ensures events == old(events)
    {
      isCanceled := true;
    }

    /** `_progress_hook(d)`. `cancelBeforeStep` places a `cancel()` by the GUI thread in the pause
        before that step of the merge ramp. */
    method ProgressHook(d: HookDict, cancelBeforeStep: Option<int>) returns (outcome: HookOutcome)
      modifies this
      ensures var s := HookSpec(old(isCanceled), d, cancelBeforeStep);
        events == old(events) + s.emitted && isCanceled == s.canceled && outcome == s.outcome
    {
      if isCanceled {
        return Raise(CancelledByUser);
      }

      var (downloadType, displayTitle) := ParseDownloadTypeTitle(d);

      if d.status == "downloading" {
        var percent := PercentText(d.percentStr);
        // `percent == 100` compares a str with an int: it is never true, so there is no clamp here
        var value := PercentValue(percent);
        if value.None? {
          return Raise(FloatErrorPrefix + "'" + percent + "'");
        }
        events := events + [ProgressSignal(value.value, downloadType + DownloadingInfix + displayTitle)];
      } else if d.status == "finished" {
        var text := downloadType + MergingInfix + displayTitle;
        var p := 90;
        while p < 100
          invariant 90 <= p <= RampStop(cancelBeforeStep)
          invariant events == old(events) + Ramp(90, p, text)
          invariant !isCanceled
        {
          if cancelBeforeStep == Some(p) {
            Cancel();
          }
          if isCanceled {
            break;
          }
          RampSnoc(90, p, text);
          events := events + [ProgressSignal(p as real, text)];
          p := p + 1;
        }
        events := events + [ProgressSignal(100.0, text)];
      }
      outcome := Continue;
    }

    /** `_download_single(ffmpeg_path)`; `subtitles` is what the metadata query reports. */
    method DownloadSingle(ffmpegPath: string, subtitles: Option<set<string>>) returns (ydl: Option<YdlOptions>)
      modifies this`events
      ensures var p := SingleSpec(options, ffmpegPath, subtitles);
        events == old(events) + p.emitted && ydl == p.ydl
    {
      events := events + [ProgressSignal(0.0, AnalysingVideo)];
      var requestedLangs := options.subtitleLangs;

      var validLangs: seq<string> := [];
      if options.subtitleEnabled {
        validLangs := GetAvailableSub(requestedLangs, subtitles);
        if validLangs == [] && options.subtitleOnly {
          events := events + [FinishedSignal(NoSubtitlesSingle)];
          return None;
        }
        events := events + [ProgressSignal(0.0, AvailableLanguagesPrefix + Join(validLangs, ", "))];
      }

      ydl := Some(RequestOptions(options, ffmpegPath, false, validLangs));
    }

    /** `_download_playlist(ffmpeg_path)`. */
    method DownloadPlaylist(ffmpegPath: string) returns (ydl: Option<YdlOptions>)
      modifies this`events
      ensures var p := PlaylistSpec(options, ffmpegPath);
        events == old(events) + p.emitted && ydl == p.ydl
    {
      events := events + [ProgressSignal(0.0, DetectingPlaylist)];
      var requestedLangs := options.subtitleLangs;

      var validLangs: seq<string> := [];
      if options.subtitleEnabled {
        validLangs := requestedLangs;
        if validLangs == [] && options.subtitleOnly {
          events := events + [FinishedSignal(NoSubtitlesPlaylist)];
          return None;
        }
      }

      ydl := Some(RequestOptions(options, ffmpegPath, true, validLangs));
    }

    /** The library's `download([url])` with this thread's hook installed: one hook call per report,
        `cancel()` interleaved as each call says, until the hook raises or the reports run out; then
        the library's own exception, if any. Returns the message of the exception it ends with. */
    method LibraryDownload(calls: seq<HookCall>, libraryError: Option<string>) returns (error: Option<string>)
      modifies this
      ensures var t := DownloadSpec(old(isCanceled), calls, libraryError);
        events == old(events) + t.emitted && isCanceled == t.canceled && error == t.error
    {
      ghost var canceled0 := isCanceled;
      ghost var done: seq<Signal> := [];
      error := None;
      var i := 0;
      assert calls[i..] == calls;
      assert done + DownloadSpec(isCanceled, calls, libraryError).emitted == DownloadSpec(isCanceled, calls, libraryError).emitted;
      while i < |calls| && error.None?
        invariant 0 <= i <= |calls|
        invariant events == old(events) + done
        invariant error.None? ==>
          var rest := DownloadSpec(isCanceled, calls[i..], libraryError);
          DownloadSpec(canceled0, calls, libraryError) == DownloadTrace(done + rest.emitted, rest.canceled, rest.error)
        invariant error.Some? ==>
          DownloadSpec(canceled0, calls, libraryError) == DownloadTrace(done, isCanceled, error)
      {
        ghost var c := isCanceled || calls[i].cancelBefore;
        ghost var step := HookSpec(c, calls[i].d, calls[i].cancelBeforeStep);
        ghost var eventsBefore := events;
        DownloadLoopStep(canceled0, calls, libraryError, i, done, isCanceled);
        if calls[i].cancelBefore {
          Cancel();
        }
        assert isCanceled == c && events == eventsBefore;
        var outcome := ProgressHook(calls[i].d, calls[i].cancelBeforeStep);
        AppendAssoc(old(events), done, step.emitted);
        done := done + step.emitted;
        if outcome.Raise? {
          error := Some(outcome.message);
        }
        i := i + 1;
      }
      if error.None? {
        error := libraryError;
      }
    }

    /** `run()`. `ffmpegPath` is what `_get_ffmpeg_path` found (`""` when ffmpeg.exe is missing);
        `calls` are the library's calls of the hook, `subtitles` its metadata query's languages and
        `libraryError` the exception it raises on its own. Returns the option dictionary handed to
        the library, `None` when `run` returned before the download. */
    method Run(ffmpegPath: string, calls: seq<HookCall>, subtitles: Option<set<string>>, libraryError: Option<string>)
      returns (issued: Option<map<OptKey, OptValue>>)
      modifies this
      ensures var t := RunSpec(options, old(isCanceled), ffmpegPath, calls, subtitles, libraryError);
        && events == old(events) + t.emitted
        && isCanceled == t.canceled
        && (issued.Some? <==> t.config.Some?)
        && (issued.Some? ==> Configures(t.config.value, issued.value))
    {
      if ffmpegPath == "" {
        events := events + [ErrorSignal(FfmpegMissing)];
        return None;
      }

      var ydlOptions: Option<YdlOptions>;
      if IsPlaylist(options.url) {
        ydlOptions := DownloadPlaylist(ffmpegPath);
      } else {
        ydlOptions := DownloadSingle(ffmpegPath, subtitles);
      }

      if ydlOptions.None? {
        return None;
      }

      var ydlOpts := ydlOptions.value.Build();
      issued := Some(ydlOpts);

      ghost var prepared := events[|old(events)|..];
      assert events == old(events) + prepared;
      ghost var canceled0 := isCanceled;
      var error := LibraryDownload(calls, libraryError);
      ghost var dl := DownloadSpec(canceled0, calls, libraryError);
      AppendAssoc(old(events), prepared, dl.emitted);
      AppendAssoc(old(events), prepared + dl.emitted, [Terminal(error)]);
      if error.None? {
        events := events + [FinishedSignal(DownloadDone)];
      } else if Contains(error.value, CancelMarker) {
        events := events + [ErrorSignal(UserCancelled)];
      } else {
        events := events + [ErrorSignal(ErrorPrefix + error.value)];
      }
    }
  }
}
