/** downloadTrack: one download attempt for one track. The output directory is
    a set of file names; the external downloader and the rename are inputs
    that say what happened when they ran. */
module Attempt {
  import opened Domain
  import opened Classifier
  import opened Sanitizer

  /** The audio formats looked for, in the order they are tried. */
  const Extensions: seq<string> := [".mp3", ".webm", ".m4a", ".ogg", ".opus"]

  /** Marks a file the downloader is still writing. */
  const TempSuffix := ".tmp"

  const SkippedMessage := "File already exists"
  const DownloadedMessage := "Downloaded successfully"
  const StdoutPipePrefix := "Failed to create stdout pipe: "
  const StderrPipePrefix := "Failed to create stderr pipe: "
  const StartPrefix := "Failed to start command: "
  const RenamePrefix := "Failed to rename temp file: "

  /** What running the external downloader did. Each error is the text of the
      Go error value. `after` is the whole directory once the run has ended
      (the run may have added, replaced or removed files) and `stderr` the
      error text captured from it. */
  datatype ToolRun =
    | StdoutPipeFailed(err: string)
    | StderrPipeFailed(err: string)
    | StartFailed(err: string)
    | Exited(after: set<string>, stderr: string)

  /** What renaming the temporary file did. */
  datatype RenameResult = Renamed | RenameFailed(err: string)

  /** The result, the directory afterwards, and the argument list handed to the
      downloader (None when it was never prepared). */
  datatype AttemptOutcome = AttemptOutcome(result: DownloadResult, files: set<string>, command: Option<seq<string>>)

  const SkippedResult := DownloadResult(true, true, NetworkError, SkippedMessage)
  const DownloadedResult := DownloadResult(true, false, NetworkError, DownloadedMessage)

  /** The base name every file of the track carries: at most MaxRunes code
      points, none of them a character file names may not hold. */
  function SafeName(t: Track): (safe: string)
    ensures |safe| <= MaxRunes && NoInvalid(safe)
  {
    Sanitize(t.artist + " - " + t.title)
  }

  /** The finished file names, one per extension. */
  function FinalNames(safe: string): (names: seq<string>)
    ensures |names| == |Extensions|
    ensures forall i :: 0 <= i < |Extensions| ==> names[i] == safe + Extensions[i]
  {
    seq(|Extensions|, i requires 0 <= i < |Extensions| => safe + Extensions[i])
  }

  /** The temporary file names, one per extension. */
  function TempNames(safe: string): (names: seq<string>)
    ensures |names| == |Extensions|
    ensures forall i :: 0 <= i < |Extensions| ==> names[i] == FinalNames(safe)[i] + TempSuffix
  {
    seq(|Extensions|, i requires 0 <= i < |Extensions| => FinalNames(safe)[i] + TempSuffix)
  }

  /** The first name of the list, from position `from` on, that is in `files`. */
  function FirstPresent(files: set<string>, names: seq<string>, from: nat): (r: Option<nat>)
    requires from <= |names|
    ensures r.Some? ==> from <= r.value < |names| && names[r.value] in files
    ensures r.Some? ==> forall j :: from <= j < r.value ==> names[j] !in files
    ensures r.None? ==> forall j :: from <= j < |names| ==> names[j] !in files
    decreases |names| - from
  {
    if from == |names| then None
    else if names[from] in files then Some(from)
    else FirstPresent(files, names, from + 1)
  }

  /** Some finished file of the track is in `files`. */
  predicate HasFinal(files: set<string>, safe: string) {
    exists i :: 0 <= i < |Extensions| && FinalNames(safe)[i] in files
  }

  lemma FinalFoundIffPresent(files: set<string>, safe: string)
    ensures FirstPresent(files, FinalNames(safe), 0).Some? <==> HasFinal(files, safe)
  {
    var r := FirstPresent(files, FinalNames(safe), 0);
    if r.Some? {
      assert FinalNames(safe)[r.value] in files;
    }
  }

  /** Position `i` holds the first temporary file present in `files`. */
  predicate FirstTempAt(files: set<string>, safe: string, i: int) {
    && 0 <= i < |Extensions|
    && TempNames(safe)[i] in files
    && forall j :: 0 <= j < i ==> TempNames(safe)[j] !in files
  }

  /** What the search string is made of. */
  function Query(t: Track): string {
    t.artist + " " + t.title
  }

  const SearchPrefix := "ytsearch1:"
  const ProxyFlag := "--proxy"

  /** Where the downloader is told to write: the safe name, the extension it
      chooses, then the temporary suffix. */
  function OutputTemplate(safe: string): string {
    safe + ".%(ext)s" + TempSuffix
  }

  /** The arguments that do not depend on the configuration. */
  function BaseArgs(template: string): seq<string> {
    [ "--extract-audio", "--audio-format", "mp3", "--audio-quality", "192K",
      "--prefer-ffmpeg", "--output", template, "--no-playlist",
      "--max-downloads", "1", "--ignore-errors" ]
  }

  /** The downloader's argument list, without the command that runs it: the
      fixed arguments, then the proxy flag and proxy when one is set, then the
      search directive. */
  function BuildArgs(t: Track, safe: string, proxy: string): (args: seq<string>)
    ensures |args| == |BaseArgs(OutputTemplate(safe))| + (if proxy == "" then 1 else 3)
    ensures args[..12] == BaseArgs(OutputTemplate(safe))
    ensures proxy != "" ==> args[12..14] == [ProxyFlag, proxy]
    ensures args[|args| - 1] == SearchPrefix + Query(t)
  {
    BaseArgs(OutputTemplate(safe)) + (if proxy != "" then [ProxyFlag, proxy] else []) + [SearchPrefix + Query(t)]
  }

  /** The proxy flag is passed exactly when a proxy is configured, and then it
      is followed by the proxy; the search directive is always last, and the
      output template always follows the output flag. */
  lemma ArgsShape(t: Track, safe: string, proxy: string)
    ensures var args := BuildArgs(t, safe, proxy);
      && (ProxyFlag in args <==> proxy != "")
      && (proxy != "" ==> args[12] == ProxyFlag && args[13] == proxy)
      && args[|args| - 1] == SearchPrefix + Query(t)
      && args[6] == "--output" && args[7] == OutputTemplate(safe)
  {
    var args := BuildArgs(t, safe, proxy);
    var base := BaseArgs(OutputTemplate(safe));
    var template := OutputTemplate(safe);
    assert template[|template| - 1] == 'p';
    assert ProxyFlag[|ProxyFlag| - 1] == 'y';
    assert ProxyFlag !in base;
    var last := SearchPrefix + Query(t);
    assert last[0] == 'y' && ProxyFlag[0] == '-';
    if proxy == "" {
      assert args == base + [last];
    } else {
      assert args == base + [ProxyFlag, proxy] + [last];
    }
  }

  /** A result together with the directory it leaves behind. */
  datatype Settled = Settled(result: DownloadResult, files: set<string>)

  /** The part of downloadTrack after the downloader has exited: the first
      temporary file found is renamed to its finished name (and removed when
      the rename fails); with none, the error text is classified. */
  function Finish(safe: string, after: set<string>, stderr: string, rename: RenameResult): (s: Settled)
    ensures forall i :: FirstTempAt(after, safe, i) ==>
      var tmp, fin := TempNames(safe)[i], FinalNames(safe)[i];
      && tmp !in s.files
      && (rename.Renamed? ==> s.result == DownloadedResult && s.files == after - {tmp} + {fin})
      && (rename.RenameFailed? ==>
            s.result == Failed(UnknownError, RenamePrefix + rename.err) && s.files == after - {tmp})
    ensures (forall i :: 0 <= i < |Extensions| ==> TempNames(safe)[i] !in after) ==>
      var c := AnalyzeFailure(stderr);
      s.result == Failed(c.reason, c.message) && s.files == after
    ensures !s.result.skipped
  {
    match FirstPresent(after, TempNames(safe), 0)
    case Some(i) =>
      var tmp, fin := TempNames(safe)[i], FinalNames(safe)[i];
      assert |fin| < |tmp|;
      (match rename
       case Renamed => Settled(DownloadedResult, after - {tmp} + {fin})
       case RenameFailed(err) => Settled(Failed(UnknownError, RenamePrefix + err), after - {tmp}))
    case None =>
      var c := AnalyzeFailure(stderr);
      Settled(Failed(c.reason, c.message), after)
  }

  /** The part of downloadTrack from creating the pipes on, with the argument
      list already prepared. */
  function Launch(safe: string, args: seq<string>, files: set<string>, run: ToolRun, rename: RenameResult): (o: AttemptOutcome)
    ensures o.command == Some(args) && !o.result.skipped
    ensures run.StdoutPipeFailed? ==> o.result == Failed(UnknownError, StdoutPipePrefix + run.err) && o.files == files
    ensures run.StderrPipeFailed? ==> o.result == Failed(UnknownError, StderrPipePrefix + run.err) && o.files == files
    ensures run.StartFailed? ==> o.result == Failed(UnknownError, StartPrefix + run.err) && o.files == files
    ensures run.Exited? ==> Settled(o.result, o.files) == Finish(safe, run.after, run.stderr, rename)
  {
    match run
    case StdoutPipeFailed(err) => AttemptOutcome(Failed(UnknownError, StdoutPipePrefix + err), files, Some(args))
    case StderrPipeFailed(err) => AttemptOutcome(Failed(UnknownError, StderrPipePrefix + err), files, Some(args))
    case StartFailed(err) => AttemptOutcome(Failed(UnknownError, StartPrefix + err), files, Some(args))
    case Exited(after, stderr) =>
      var s := Finish(safe, after, stderr, rename);
      AttemptOutcome(s.result, s.files, Some(args))
  }

  /** One call of downloadTrack. With skipping enabled and a finished file
      present it reports a skip and prepares nothing; otherwise the arguments
      are prepared, a failure to set up or start the downloader leaves the
      directory as it was, and after the downloader has exited Finish decides. */
  function Attempt(cfg: Config, t: Track, files: set<string>, run: ToolRun, rename: RenameResult): (o: AttemptOutcome)
    ensures var skip := cfg.skipExists && HasFinal(files, SafeName(t));
      && (o.command.None? <==> skip)
      && (o.result.skipped <==> skip)
      && (skip ==> o.result == SkippedResult && o.files == files)
      && (!skip ==> o.command == Some(BuildArgs(t, SafeName(t), cfg.proxy)))
    ensures !(cfg.skipExists && HasFinal(files, SafeName(t))) ==>
      && (run.StdoutPipeFailed? ==> o.result == Failed(UnknownError, StdoutPipePrefix + run.err) && o.files == files)
      && (run.StderrPipeFailed? ==> o.result == Failed(UnknownError, StderrPipePrefix + run.err) && o.files == files)
      && (run.StartFailed? ==> o.result == Failed(UnknownError, StartPrefix + run.err) && o.files == files)
      && (run.Exited? ==>
            Settled(o.result, o.files) == Finish(SafeName(t), run.after, run.stderr, rename))
  {
    var safe := SafeName(t);
    FinalFoundIffPresent(files, safe);
    if cfg.skipExists && FirstPresent(files, FinalNames(safe), 0).Some? then
      AttemptOutcome(SkippedResult, files, None)
    else
      Launch(safe, BuildArgs(t, safe, cfg.proxy), files, run, rename)
  }

  /** Whenever the downloader is prepared, it is handed the proxy flag exactly
      when a proxy is configured, and then the configured proxy after it. */
  lemma ProxyFollowsConfig(cfg: Config, t: Track, files: set<string>, run: ToolRun, rename: RenameResult)
    ensures var o := Attempt(cfg, t, files, run, rename);
      o.command.Some? ==>
        && (ProxyFlag in o.command.value <==> cfg.proxy != "")
        && (cfg.proxy != "" ==> o.command.value[13] == cfg.proxy)
  {
    ArgsShape(t, SafeName(t), cfg.proxy);
  }

  /** A fresh downloader passes the default proxy; after SetProxy with the
      empty string no proxy is passed. */
  lemma DefaultAndDisabledProxy(workers: int, t: Track, files: set<string>, run: ToolRun, rename: RenameResult)
    ensures var o := Attempt(NewDownloader(workers), t, files, run, rename);
      o.command.Some? ==> o.command.value[12] == ProxyFlag && o.command.value[13] == DefaultProxy
    ensures var o := Attempt(SetProxy(NewDownloader(workers), ""), t, files, run, rename);
      o.command.Some? ==> ProxyFlag !in o.command.value
  {
    ArgsShape(t, SafeName(t), DefaultProxy);
    ArgsShape(t, SafeName(t), "");
  }

  /** A successful attempt leaves a finished file of the track behind. */
  lemma SuccessLeavesFinal(cfg: Config, t: Track, files: set<string>, run: ToolRun, rename: RenameResult)
    ensures var o := Attempt(cfg, t, files, run, rename);
      o.result.success ==> HasFinal(o.files, SafeName(t))
  {
    var safe := SafeName(t);
    var o := Attempt(cfg, t, files, run, rename);
    if o.result.success && !(cfg.skipExists && HasFinal(files, safe)) {
      var after := run.after;
      var r := FirstPresent(after, TempNames(safe), 0);
      if r.Some? {
        assert FirstTempAt(after, safe, r.value);
        assert FinalNames(safe)[r.value] in o.files;
      }
    }
  }

  /** Once an attempt has succeeded, the next attempt for the same track with
      skipping enabled reports a skip, whatever the downloader would do. */
  lemma DownloadThenSkip(cfg: Config, t: Track, files: set<string>, run: ToolRun, rename: RenameResult,
                         run': ToolRun, rename': RenameResult)
    ensures var o := Attempt(cfg, t, files, run, rename);
      cfg.skipExists && o.result.success ==>
        Attempt(cfg, t, o.files, run', rename') == AttemptOutcome(SkippedResult, o.files, None)
  {
    SuccessLeavesFinal(cfg, t, files, run, rename);
  }
}
