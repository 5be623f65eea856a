# Playlist downloader core, modelled in Dafny

The program reads a playlist file of "Artist - Title" lines. It downloads
each track with the external yt-dlp tool, using a pool of workers, retries
failures, and appends every track that still fails to a failure log. This
project models the program's decision logic as pure Dafny functions and
proves properties about it:

- `Playlist` covers `readPlaylist`:
  - Each line is trimmed.
  - Blank lines and repeated lines are dropped.
  - A line is cut at its first `" - "`; the title keeps any later separators.
  - Tracks keep the order in which their lines first appear.
- `Sanitizer` covers `sanitizeFilename`:
  - Twelve characters are replaced by `_`.
  - The result is trimmed.
  - It is cut to 100 code points.
- `Classifier` covers `analyzeFailure`. It searches the lower-cased error text
  for keywords: first the 20 network keywords, then the 11 not-found keywords,
  then falls back to an unknown error.
- `Attempt` covers one call of `downloadTrack`:
  - A finished file already present is skipped.
  - The yt-dlp argument list is built.
  - A pipe or start failure is reported.
  - The first `.tmp` file left behind is renamed.
  - Otherwise the error text is classified.
- `Worker` covers the rest of `worker`:
  - the retry loop, with linear pauses of 1, 2, … seconds;
  - the bookkeeping done under the mutex, modelled as a sequential fold over
    the order in which tracks reach the lock:
    - three counters;
    - one progress line per track, carrying its `[index/total]` position;
    - the text of that line, as printed;
    - failed tracks forwarded to the failure log.
- `Text` restates the Go `strings` functions the program uses:
  - `TrimSpace` with Go's `unicode.IsSpace` set;
  - `Index`, `Contains`, `Split`, `Join` and `ReplaceAll`, for one character;
  - `ToLower`, for ASCII;
  - `%d` formatting of non-negative numbers.
- `Domain` holds `Track`, `FailureReason`, `DownloadResult`, the downloader
  settings, `NewDownloader` and `SetProxy`.

The model represents the effects of the outside world as follows:

- The output directory is a set of file names.
- Running yt-dlp is an input value (`ToolRun`): a pipe or start failure, or an
  exit together with the whole directory as the run left it and the error text
  it printed. The run may add, replace or remove files.
- The rename's outcome is an input value (`RenameResult`).
- The retry loop takes the result of each attempt as a function of the attempt
  number.

## Model

| member | source | states |
|---|---|---|
| Classifier.AnalyzeFailure | main.go:325-360 | The reason is NetworkError exactly when a network keyword occurs in the lower-cased text. It is NotFound exactly when no network keyword but a not-found keyword occurs. Otherwise it is UnknownError. Each message is the matching prefix plus the trimmed text. Empty text gives "Unknown error occurred". |
| Classifier.ReasonIgnoresCase | main.go:326 | Two error texts that differ only in letter case get the same reason. |
| Classifier.EmptyOutputIsUnknown | main.go:354-359 | An empty error text is classified as UnknownError with the message "Unknown error occurred". |
| Classifier.NetworkCheckedFirst | main.go:335-352 | A text that matches both lists ("ERROR: Host not found") is a network error, because the network keywords are searched first. |
| Sanitizer.ReplaceEach | main.go:369-371 | The ReplaceAll passes, in list order, keep the length, turn every listed character into `_` and keep every other character. |
| Sanitizer.Truncate | main.go:375-378 | Keeps the first 100 code points: the whole name when it is short enough, exactly 100 of them otherwise. |
| Sanitizer.ReplaceLoopIsScrub | main.go:365-371 | The twelve ReplaceAll passes, applied in sequence, replace every listed character with `_` and keep all other characters. |
| Sanitizer.Sanitize | main.go:363-381 | The result has at most 100 code points and contains no invalid character. It is a prefix of the trimmed, scrubbed name: all of it when that name is short enough, exactly 100 code points otherwise. It never starts with white space. |
| Sanitizer.SanitizeAgain | main.go:374-378 | Sanitizing a sanitized name only trims it again. When the original fitted in 100 code points, it changes nothing. |
| Playlist.ParseLine | main.go:403-416 | A line yields a track exactly when it contains " - ". The artist is the trimmed text before the first separator, the title is the trimmed rest (later separators included), and the raw line is the line itself, never empty. |
| Playlist.ParseFirstSeenOrder | main.go:395-418 | Every track's raw line is a trimmed line of the file. Tracks appear in the order their lines first occur, and no raw line appears twice. |
| Playlist.ParseSoundAndComplete | main.go:396-417 | Every track is the parse of some trimmed line. Every trimmed line containing the separator yields a track. |
| Playlist.ParseWellFormed | main.go:396-416 | Every parsed track's raw line is trimmed and parses back to the track, and raw lines are distinct. |
| Playlist.ReparseRaws | main.go:395-418 | Reading back the raw lines of well-formed tracks as a playlist gives the same tracks. |
| Playlist.ReadBackAppended | main.go:395-418 | Appending the raw lines of well-formed tracks to any playlist and reading it back gives exactly the earlier tracks and the appended ones. |
| Playlist.ReadBackAppendedFresh | main.go:395-418 | When none of the appended lines was already in the file, the result is the earlier tracks followed by the appended ones, in order. |
| Playlist.ReadPlaylist | main.go:391-418 | The single pass with a set of lines already seen computes the reference definition, and its result is well formed. |
| Playlist.ParseShortArtist | main.go:404-416 | A line made of a one-character artist, the separator and a title gives that artist and the trimmed title. |
| Playlist.DuplicateAndBlankDropped | main.go:396-401 | For the lines x, x, y and a blank line, the tracks of x and y come out once each, in file order. |
| Playlist.ExamplePlaylist | main.go:395-418 | "A - B", "A - B", "C - D - E", "" gives two tracks, and the second title is "D - E". |
| Text.TrimSpace | main.go:396 | The result is no longer than the input and neither starts nor ends with white space (Go's `unicode.IsSpace` set). |
| Text.TrimSpaceSlice | main.go:396 | The result is one contiguous slice of the input, and everything cut off on either side is white space. |
| Text.Lower | main.go:326 | Same length; each character is lower-cased, and no ASCII capital letter remains. |
| Text.Split | main.go:404 | Split gives at least one part, and no part contains the separator. |
| Text.Decimal | main.go:133-149 | `%d` of a non-negative number: at least one character, all decimal digits, no leading zero. |
| Text.DecimalValue | main.go:133-149 | Reading the printed digits back gives the number. |
| Text.JoinSplit | main.go:404-411 | Joining the parts of Split with the same separator gives the string back. |
| Text.SplitAtFirst | main.go:404-411 | Split gives at least two parts exactly when the separator occurs. The first part precedes the first occurrence, and joining the other parts gives everything after it. |
| Text.TrimSpaceIdempotent | main.go:396 | Trimming twice is the same as trimming once. |
| Attempt.SafeName | main.go:186 | The base name of a track's files has at most 100 code points and no invalid character. |
| Attempt.BuildArgs | main.go:199-221 | The twelve fixed arguments come first, then `--proxy` and the proxy when one is set, and the `ytsearch1:` query last. |
| Attempt.FirstPresent | main.go:192-196 | Returns the first listed name that is present in the directory, or reports that none is. |
| Attempt.ArgsShape | main.go:199-221 | `--proxy` is passed exactly when a proxy is set, and the proxy follows it at positions 12-13. The output template follows `--output`. The `ytsearch1:` query is last. |
| Attempt.Finish | main.go:301-321 | The first `.tmp` file present is always gone afterwards. A successful rename gives "Downloaded successfully" and the finished file. A failed rename gives UnknownError "Failed to rename temp file: …". With no `.tmp` file, the directory is unchanged and the result is the classification of the error text. |
| Attempt.Launch | main.go:236-321 | A stdout-pipe, stderr-pipe or start failure gives UnknownError with the matching message and leaves the directory unchanged. After an exit, the result is Finish's on the directory as the run left it. |
| Attempt.Attempt | main.go:185-322 | The attempt reports a skip, and never prepares a command, exactly when skipping is on and a finished file exists. Otherwise the command is the built argument list, and the failures and the outcome are as in Launch. |
| Attempt.SuccessLeavesFinal | main.go:189-197 | After a successful attempt, a finished file of the track is in the directory. |
| Attempt.DownloadThenSkip | main.go:189-197 | With skipping on, after a successful attempt the next attempt for the same track reports a skip, whatever the tool would do. |
| Domain.NewDownloader | main.go:58-66 | A new downloader retries twice, skips finished files and uses the configured proxy. |
| Domain.SetProxy | main.go:69-71 | Sets the proxy and changes no other setting. |
| Attempt.ProxyFollowsConfig | main.go:215-218 | Whenever the tool is prepared, it gets the proxy flag exactly when a proxy is set. |
| Attempt.DefaultAndDisabledProxy | main.go:58-71 | A fresh downloader passes the default proxy. `SetProxy("")` removes the proxy flag. |
| Worker.Retry | main.go:117-126 | A negative retryCount gives the zero result with no attempts. Otherwise there are 1 to retryCount+1 attempts, and the result is the last one. All earlier attempts failed, and stopping early means success. Pauses are 1, 2, … seconds, one fewer than the attempts. |
| Worker.RetryWithDefaults | main.go:58-66 | With NewDownloader's settings there are at most three attempts, and the pauses are a prefix of 1, 2. |
| Worker.Record | main.go:128-152 | Exactly one counter goes up, the one matching skipped/downloaded/failed. One progress line is added, carrying the new done-count, the total and the raw line. A failed track is forwarded to the log. |
| Worker.RecordAll | main.go:114-153 | The locked section applied to each settled track in the order the tracks reach the lock. It has no contract of its own; RecordAllExtends and the lemmas below state what it computes. |
| Worker.RecordAllExtends | main.go:128-152 | Each job adds one to the done-count and one progress line. Earlier progress lines and forwarded tracks are kept unchanged. |
| Worker.RecordAllCounts | main.go:128-152 | After all jobs, each counter equals the number of jobs in its class, and together they count every job. |
| Worker.RecordAllProgress | main.go:133-149 | The i-th progress line shows position i+1 of the total and the i-th job's raw line. |
| Worker.ProgressStatus | main.go:130-149 | Each progress line's status matches its job's result, and a failure carries the job's reason. |
| Worker.ReasonText | main.go:140-148 | The bracketed text for each reason. It has no contract of its own; ReasonTextNamesReason states what matters about it. |
| Worker.ReasonTextNamesReason | main.go:140-148 | The three texts differ, so the text names the reason. |
| Worker.PrintedLines | main.go:133-149 | The i-th printed line is the status icon, `[i+1/total] `, the label, the job's raw line and, for a failure, ` [reason text]`. |
| Worker.FailureLineNamesReason | main.go:149 | Two failure lines for the same track and position are equal exactly when the reasons are equal. |
| Worker.RecordAllForwards | main.go:150 | The tracks forwarded to the log are exactly the failed jobs' tracks, in order, and there are as many as the failed counter. |
| Worker.AllSkipped | main.go:130-133 | If every job was skipped, only the skipped counter moves and nothing reaches the log. |
| Worker.FailedTracksFrom | main.go:138-150 | Every logged track belongs to a job that failed. |
| Worker.FailureLogReadsBack | main.go:150 | Applies when the log file is empty at the start of the run. For distinct tracks of a playlist, settled in any order, this run's lines read back as a playlist give the logged tracks, and these are the failed tracks in the order they failed. |
| Worker.FailureLogAppended | main.go:150-173 | The file is opened for appending, so it holds earlier runs' lines first. Reading it back gives exactly the earlier tracks and this run's failed tracks. That includes earlier tracks that have since succeeded. When no failed line was in the file already, this run's failures follow in the order they failed. |

## Left out

- Running yt-dlp (`exec.Command`, `getYtDlpCommand`, `checkYtDlp`) is an input. The leading command words are not modelled; the argument list is.
- The goroutines that drain stdout and stderr, and their progress printing, are left out. The captured error text is an input to Finish.
- Concurrency (channels, WaitGroups, the mutex, the worker count) is left out. The pool is modelled by the order in which settled tracks reach the lock.
- The fold over every track is the program's behaviour only when at least one worker runs (`main` passes 4) and the failure log was opened. With zero or fewer workers, the loop at main.go:85 starts none, and `Download` returns with no track recorded and all counters at 0. When the log cannot be opened (main.go:161-163), the writer goroutine returns, and the first failed track blocks its worker forever on the unbuffered channel (main.go:64, 150) while it holds the mutex. Neither case is modelled.
- `Download` and `streamSaveFailedTracks` are not modelled as I/O. This run's part of the log is the forwarded sequence of tracks, written as their raw lines (`Raws`). The file is opened for appending and never truncated, so it keeps the lines of earlier runs; these are a parameter (`prior`) of Worker.FailureLogAppended. A failure to open the file is not modelled.
- `saveFailedTracks`, `cleanupTempFiles` and `main` are left out. They are file-system I/O and top-level wiring.
- Reading the file and `bufio.Scanner` line splitting are left out. `readPlaylist` takes the lines; the scanner's token limit and its error are not modelled.
- `filepath.Join` is left out. File names are relative to the output directory.
- `os.Remove` of the temporary file after a failed rename is assumed to succeed, as the program ignores its error.
- `time.Sleep` is left out. Retry records the schedule of pauses, not the waiting.
- Printing itself is left out: the progress lines are modelled as text (`Line`), not as output. The "Searching:" line and the drain goroutines' output are not modelled.
- Classifier.AnalyzeFailure: `strings.ToLower` is modelled for ASCII letters only. The keywords are ASCII, but a non-ASCII upper-case letter in the error text is not folded.
- Classifier.AnalyzeFailure: the `cmdErr` argument is dropped, because the Go code never reads it.
- Invalid UTF-8 is left out. Strings are sequences of code points, so a rune count is a length.
- Worker.Retry: each attempt's result is an input function of the attempt number. How one attempt's directory feeds the next is covered separately by Attempt.DownloadThenSkip.

## Notes

- The Go comment in the retry loop speaks of exponential backoff, but the code sleeps attempt+1 seconds. The model follows the code: the pauses are 1, 2, … seconds.
- A successful result keeps the zero `FailureReason` (NetworkError), as the Go struct literals do. Nothing reads it.
- Sanitize trims before it truncates, so a name longer than 100 code points can end in white space. SanitizeAgain states what a second pass does.
