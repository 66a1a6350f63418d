# youDownloader core, modelled in Dafny

youDownloader is a small desktop front end for the `yt_dlp` download library. A worker thread, `DownloadThread`, takes one download request (`OptionsUI`). It decides whether the URL names a playlist. It checks the requested subtitle languages, then resolves everything into a `YdlOptions` record, whose `build()` produces the option dictionary for the library. It runs the download and reports through Qt signals: progress (percent, text), finished (message) and error (message). Its progress hook turns the library's progress reports into progress signals. A `cancel()` from the GUI thread makes the next hook call raise.

This project models that core:

- `options.dfy`: the request record `OptionsUI`.
- `dataformat.dfy`: `YdlOptions` and `build()`.
  - `Build` is a method that updates a local dictionary step by step, as the source does.
  - It is proved against `Entry`, a per-key statement of what the dictionary holds.
  - Dictionary keys are the datatype `OptKey`; `OptKey.Name()` gives the literal key strings.
- `util.dfy`: the static helpers of `Util`.
  - The playlist test.
  - The type/title classifier with its line break after 50 characters.
  - The order-preserving subtitle-language filter.
- `downloader.dfy`: the class `DownloadThread`.
  - A `const` request, the mutable cancel flag `isCanceled`, and an append-only log `events` of emitted signals.
  - Each method is proved against a specification function: `HookSpec`, `SingleSpec`, `PlaylistSpec`, `DownloadSpec` and `RunSpec`.
  - Lemmas state what the source promises about those functions.
- `text.dfy`: the Python string built-ins the core relies on, as functions on `seq<char>`:
  - `t in s` and `str.endswith`;
  - `str.replace(c, "")` and `str.strip()`;
  - `split(c)[-1]` and `rsplit(c, 1)[0]`;
  - `float()` on unsigned decimal notation.
- `wrappers.dfy`: `Option`.

The download library becomes inputs:

- The progress reports it passes to the hook, in order (`HookCall.d`).
- The subtitle languages its metadata query finds (`Option<set<string>>`; `None` when the query fails).
- The exception it raises on its own (`Option<string>`, its message).

An exception raised by the hook propagates out of `download` unchanged. The GUI thread's `cancel()` is placed in the run as a schedule:

- `HookCall.cancelBefore` puts it before a hook call.
- `HookCall.cancelBeforeStep` puts it in the pause before one step of the merge ramp.

Two behaviours of the source are modelled as written:

- The clamp `if percent == 100: percent = 98` (core/downloader.py:78-79) compares a string with an integer and never applies. `DownloadingHookEvent` shows that a report of "100%" or "100.0%" is emitted as 100.0.
- The final 100 of the merge ramp (core/downloader.py:89) sits after the loop, so it is emitted even when a cancellation broke the loop. `FinishedHookEvents` shows a broken ramp still ending with 100.

## Model

| member | source | states |
|---|---|---|
| Text.Contains | core/downloader.py:227 | `t in s` holds exactly when some window of `s` equals `t` |
| Text.EndsWith | core/downloader.py:202 | `s.endswith(t)` holds exactly when some occurrence of `t` in `s` ends where `s` ends |
| Text.RemoveAll | core/downloader.py:77 | `replace("%", "")` leaves no `%` and changes nothing in a string without one |
| Text.RemoveAllCounts | core/downloader.py:77 | every character other than the removed one is kept as often as it occurred |
| Text.RemoveAllAppend | core/downloader.py:77 | removing a character distributes over concatenation |
| Text.StripLeft | core/downloader.py:77 | the result is a suffix that starts with a non-space, and everything dropped is whitespace |
| Text.StripRight | core/downloader.py:77 | the result is a prefix that ends with a non-space, and everything dropped is whitespace |
| Text.Strip | core/downloader.py:77 | `strip()` returns the substring of `s` that has only whitespace before and after it in `s` and non-space characters at both ends, empty only for an all-whitespace input |
| Text.StripTrimmed | core/downloader.py:77 | a string with non-space ends is left unchanged by `strip()` |
| Text.AfterLast | core/downloader.py:204 | `split(c)[-1]` is the suffix after the last `c`, which holds no `c` |
| Text.BeforeLast | core/downloader.py:204 | `rsplit(c, 1)[0]` is the prefix before the last `c`, the whole string exactly when there is no `c` |
| Text.Join | core/downloader.py:109 | `sep.join(xs)` is empty for no strings and the string itself for one. Otherwise it starts with the first string, has `sep` right after it and ends with the last string |
| Text.JoinAppend | core/downloader.py:109 | joining two non-empty lists is joining each and putting `sep` between them; with the no- and one-string cases this determines `sep.join(xs)` completely |
| Text.ParseFloat | core/downloader.py:80 | a parsed percentage is never negative |
| Text.ParseFloatCharacters | core/downloader.py:80 | `float` accepts only texts made of digits and the decimal point |
| Text.ParseDecimalPointZero | core/downloader.py:80 | `float(str(n) + ".0")` reads back as `n` for every natural number `n` |
| Text.ParseDecimalString | core/downloader.py:80 | `float(str(n))` reads back as `n` for every natural number `n`. In the model this is exact; Python's double agrees for `n` up to 2^53, which covers every whole percentage |
| DataFormat.PathJoin | models/dataformat.py:20 | the Windows join puts exactly one separator between directory and template, none after an empty directory, a trailing separator or a bare drive |
| DataFormat.YdlOptions.Build | models/dataformat.py:18-49 | the dictionary built step by step holds, for every key, exactly the entry `Entry` prescribes, and no other key |
| DataFormat.ConfiguredKeys | models/dataformat.py:19-47 | `quiet` is true and `ffmpeg_location` is the tool path. `noplaylist` negates `is_playlist`. `progress_hooks` is present iff a hook is set. The three subtitle keys are present iff the language list is non-empty. Subtitle-only adds `skip_download` and the plain template and drops `format` and the fragment count; otherwise the reverse |
| DataFormat.ConfiguresUnique | models/dataformat.py:18-49 | `build()` depends on its record alone: two dictionaries built from the same record are equal |
| Util.IsPlaylist | core/downloader.py:223-230 | a URL is a playlist iff "playlist" occurs in it |
| Util.PlaylistExamples | core/downloader.py:223-230 | a playlist URL is recognised and a watch URL is not |
| Util.BreakLongLine | core/downloader.py:213-215 | a title of at most 50 characters is unchanged. A longer one grows by one character, the newline at index 50, and deleting it restores the title |
| Util.IsSubtitleReport | core/downloader.py:202 | a report is about a subtitle exactly when its extension is "vtt" or its file name's last four characters are ".vtt" |
| Util.FileStem | core/downloader.py:204 | the stem of a file name holds no backslash |
| Util.FileStemOfLastComponent | core/downloader.py:204 | the stem starts the file name's last backslash-separated component. It is the whole component exactly when the component has no dot; otherwise it is what precedes the component's last dot |
| Util.ParseDownloadTypeTitle | core/downloader.py:195-217 | a subtitle report is classified as "자막", and a display title longer than 50 characters carries the line break at index 50 |
| Util.ParseDownloadTypeTitleCases | core/downloader.py:195-217 | a subtitle report gives ("자막", file stem). A missing or empty extension gives ("알 수 없음", "알 수 없는 영상"). Any other gives ("영상", title or the placeholder). The titles go through the line break |
| Util.DownloadTypeCases | core/downloader.py:202-210 | each of the three types occurs exactly under its condition on the extension and file name |
| Util.FilterAvailable | core/downloader.py:242 | the filtered languages are a subsequence of the request, all of them available |
| Util.FilterAvailableCounts | core/downloader.py:242 | each available requested language is kept as often as it was requested, every other one dropped |
| Util.GetAvailableSub | core/downloader.py:236-244 | a failed metadata query gives `[]`, otherwise the filter over the languages found |
| Downloader.CanceledHookRaises | core/downloader.py:71-72 | a hook entered after cancellation emits nothing and raises a message containing "취소됨", which `run` reports as the user's cancellation |
| Downloader.PercentText | core/downloader.py:77 | the percent text holds no `%` and has no whitespace at either end |
| Downloader.PercentValue | core/downloader.py:80 | `float(percent or 0)` is 0 for an empty text and never negative |
| Downloader.WholePercentValue | core/downloader.py:77-80 | the percent text "n%" of a whole percentage reads back as exactly n |
| Downloader.OneDecimalPercentValue | core/downloader.py:77-80 | the library's one-decimal percent text "n.0%" reads back as exactly n |
| Downloader.DownloadingHookEvent | core/downloader.py:76-80 | a "downloading" report of "n%" or "n.0%" emits one signal of n, so "100%" and "100.0%" give 100.0; an empty percentage gives 0 |
| Downloader.NonNumericPercentRaises | core/downloader.py:76-80 | a "downloading" report whose percent text holds a character other than a digit or a point emits nothing and raises `float`'s error |
| Downloader.FinishedHookEvents | core/downloader.py:82-89 | a "finished" report emits 90, 91, ... up to where a cancellation lands, then 100 in any case. Percents strictly increase, and without cancellation there are eleven signals |
| Downloader.HookOnlyProgress | core/downloader.py:70-89 | the hook emits only progress signals and never clears the cancel flag |
| Downloader.ErrorMessageFor | core/downloader.py:60-64 | the cancellation message is reported iff the exception text contains "취소됨"; every other exception gives the error prefix followed by its text |
| Downloader.DownloadOnlyProgress | core/downloader.py:56-58 | while the library downloads, only progress signals are emitted and a set cancel flag stays set |
| Downloader.DownloadLoopStep | core/downloader.py:56-58 | a hook call either ends the download with its exception or adds its signals and hands on to the next report |
| Downloader.SinglePrepared | core/downloader.py:92-121 | a single video stops early exactly when subtitles are on, subtitle-only is set and none of the requested languages is offered. Otherwise it passes the request through as a non-playlist download with the offered requested languages (none when subtitles are off), and every notice has percent 0 |
| Downloader.PlaylistPrepared | core/downloader.py:126-153 | a playlist stops early exactly when subtitles are on, subtitle-only is set and no language is requested. Otherwise it passes the request through as a playlist download with the requested languages verbatim |
| Downloader.NothingToDownload | core/downloader.py:43-51 | a subtitle-only request with nothing to fetch emits the analysis notice and the nothing-to-download message, in either mode, and never reaches the library |
| Downloader.RunEndsWithOneTerminal | core/downloader.py:35-64 | every run emits exactly one signal that is not a progress signal, and it is the last one |
| Downloader.RunTerminal | core/downloader.py:56-64 | a download ends with "다운로드 완료 ✅" iff nothing was raised, with the cancellation message iff the exception mentions "취소됨", and otherwise with the error message quoting the exception |
| Downloader.CancelBeforeAnyCallback | core/downloader.py:56-72 | a run cancelled before the first hook call emits only notices of percent 0 and then the cancellation message |
| Downloader.DownloadThread.constructor | core/downloader.py:26-29 | a new thread holds its request, is not cancelled and has emitted nothing |
| Downloader.DownloadThread.Cancel | core/downloader.py:160-163 | `cancel()` sets the flag and changes nothing else, so a second call has no effect |
| Downloader.DownloadThread.ProgressHook | core/downloader.py:70-89 | the hook appends exactly the signals `HookSpec` describes, including the ramp loop broken by a cancellation between steps, and leaves the flag and outcome `HookSpec` gives |
| Downloader.DownloadThread.DownloadSingle | core/downloader.py:92-121 | appends the notices of `SingleSpec` and returns its options |
| Downloader.DownloadThread.DownloadPlaylist | core/downloader.py:126-153 | appends the notices of `PlaylistSpec` and returns its options |
| Downloader.DownloadThread.LibraryDownload | core/downloader.py:56-58 | the library's loop of hook calls appends the signals of `DownloadSpec` and ends with its exception |
| Downloader.DownloadThread.Run | core/downloader.py:35-64 | `run` appends the signals of `RunSpec`. It hands the library a dictionary exactly when the request got past preparation, and that dictionary is the one `build()` prescribes for the prepared options |

## Left out

- The `yt_dlp` calls `download` and `extract_info` are inputs: the sequence of progress reports, the set of subtitle languages (or a failed query), and an optional exception message. An exception the hook raises is assumed to leave `download` unchanged.
- Qt threads, signals and `QThread.msleep(50)`: signals are an append-only log. The concurrent `cancel()` is an interleaving chosen in the inputs, at the hook-call and ramp-step boundaries only.
- `_get_ffmpeg_path` (core/downloader.py:169-184) reads the interpreter and the file system. It is an input string, empty when ffmpeg.exe is missing. Its error signal is emitted in `RunSpec`'s first branch, where `run` returns.
- Text.ParseFloat: covers unsigned decimal notation with ASCII digits only ("45", "45.3", ".5", "5."). Signs, exponents, "inf"/"nan", underscores, non-ASCII decimal digits and surrounding whitespace raise instead. The `ValueError` text is approximated by quoting the string.
- Text.ParseFloat: the value is an exact real, not an IEEE double. Python rounds to the nearest double, so whole numbers above 2^53 can come out different, and digit strings too long for a double give `inf`. Percentages are far below that bound.
- DataFormat.PathJoin: follows Windows `os.path.join` for the program's relative templates only. UNC prefixes and absolute second arguments are not modelled.
- Text.IsSpace: the whitespace set of `str.isspace()` is written out. Unicode data beyond that set is not consulted.
- A progress report is assumed to carry a `status`; a missing one would raise `KeyError` in the source. A title present with the value `None` is treated as absent. The source reads the title only for a video report, so only there would it differ: the length check for the line break (core/downloader.py:209-214) would fail with `TypeError`. Subtitle and unknown reports never read it.
- `OptionsUI.container` is carried but read by nothing in the core.
- `print` calls, `main.py` and the commented-out `VideoInfo` record.
