/** worker: the retry loop around downloadTrack and the bookkeeping done under
    the lock once a track is settled. The pool of workers is modelled as the
    sequence in which tracks reach the lock: each step holds the lock from
    start to end, so the pool's effect is that of a sequential fold. */
module Worker {
  import opened Text
  import opened Domain
  import opened Playlist

  /** What the retry loop did: the result kept, how many attempts were made and
      the pauses taken between them, in seconds. */
  datatype Retried = Retried(result: DownloadResult, attempts: nat, pauses: seq<nat>)

  /** Pauses 1, 2, …, n seconds. */
  predicate LinearPauses(pauses: seq<nat>) {
    forall i :: 0 <= i < |pauses| ==> pauses[i] == i + 1
  }

  /** The retry loop of worker. `outcome(i)` is what attempt number i (from 0)
      returns. Attempts stop at the first success and never exceed
      retryCount + 1; after a failed attempt that is not the last the worker
      pauses attempt + 1 seconds. */
  method Retry(retryCount: int, outcome: nat -> DownloadResult) returns (r: Retried)
    ensures retryCount < 0 ==> r == Retried(ZeroResult, 0, [])
    ensures retryCount >= 0 ==> 1 <= r.attempts <= retryCount + 1 && r.result == outcome(r.attempts - 1)
    ensures forall i :: 0 <= i < r.attempts - 1 ==> !outcome(i).success
    ensures retryCount >= 0 && r.attempts < retryCount + 1 ==> r.result.success
    ensures LinearPauses(r.pauses) && |r.pauses| == if r.attempts == 0 then 0 else r.attempts - 1
  {
    var result := ZeroResult;
    var attempt := 0;
    var pauses: seq<nat> := [];
    var stop := false;
    while !stop && attempt <= retryCount
      invariant 0 <= attempt && (retryCount >= 0 ==> attempt <= retryCount + 1) && (retryCount < 0 ==> attempt == 0)
      invariant attempt == 0 ==> result == ZeroResult && !stop && pauses == []
      invariant attempt > 0 ==> result == outcome(attempt - 1)
      invariant forall i :: 0 <= i < attempt - 1 ==> !outcome(i).success
      invariant stop <==> attempt > 0 && result.success
      invariant LinearPauses(pauses)
      invariant |pauses| == if attempt == 0 then 0 else if stop || attempt > retryCount then attempt - 1 else attempt
      decreases retryCount + 1 - attempt, if stop then 0 else 1
    {
      result := outcome(attempt);
      if result.success {
        stop := true;
      } else if attempt < retryCount {
        pauses := pauses + [attempt + 1];
      }
      attempt := attempt + 1;
    }
    r := Retried(result, attempt, pauses);
  }

  /** The three counters of the downloader. */
  datatype Counters = Counters(downloaded: nat, skipped: nat, failed: nat)

  function Done(c: Counters): nat {
    c.downloaded + c.skipped + c.failed
  }

  /** How a settled track is reported. */
  datatype Status = Downloaded | AlreadyExists | FailedBecause(reason: FailureReason)

  /** One progress line: the status, the position "[index/total]" and the raw
      playlist line. */
  datatype Progress = Progress(status: Status, index: nat, total: nat, raw: string)

  /** The bracketed explanation printed after a failure. */
  function ReasonText(reason: FailureReason): string {
    match reason
    case NetworkError => "Network/proxy error"
    case NotFound => "Track not found"
    case UnknownError => "Unknown error"
  }

  /** The three texts differ, so the printed text names the reason. */
  lemma ReasonTextNamesReason(a: FailureReason, b: FailureReason)
    ensures ReasonText(a) == ReasonText(b) <==> a == b
  {
    if a != b {
      assert |ReasonText(a)| != |ReasonText(b)|;
    }
  }

  /** How a result is reported. */
  function StatusOf(r: DownloadResult): Status {
    if !r.success then FailedBecause(r.reason) else if r.skipped then AlreadyExists else Downloaded
  }

  /** The symbol a progress line starts with, and the space after it. */
  function Icon(s: Status): string {
    match s
    case AlreadyExists => "\U{23ED}\U{FE0F}  "
    case Downloaded => "\U{2705} "
    case FailedBecause(_) => "\U{274C} "
  }

  /** The words between the position and the raw line. */
  function Label(s: Status): string {
    match s
    case AlreadyExists => "Already exists: "
    case Downloaded => "Downloaded: "
    case FailedBecause(_) => "Failed: "
  }

  /** What follows the raw line: the bracketed reason for a failure. */
  function Tail(s: Status): string {
    match s
    case FailedBecause(reason) => " [" + ReasonText(reason) + "]\n"
    case _ => "\n"
  }

  /** The printed position "[index/total] ". */
  function Position(index: nat, total: nat): string {
    "[" + Decimal(index) + "/" + Decimal(total) + "] "
  }

  /** The line worker prints for a settled track. */
  function Line(pr: Progress): string {
    Icon(pr.status) + Position(pr.index, pr.total) + Label(pr.status) + pr.raw + Tail(pr.status)
  }

  /** Two failure lines that differ only in the reason differ as text: the
      printed line tells which reason it was. */
  lemma FailureLineNamesReason(index: nat, total: nat, raw: string, a: FailureReason, b: FailureReason)
    ensures Line(Progress(FailedBecause(a), index, total, raw)) == Line(Progress(FailedBecause(b), index, total, raw)) <==> a == b
  {
    var head := Icon(FailedBecause(a)) + Position(index, total) + Label(FailedBecause(a)) + raw;
    var la := Line(Progress(FailedBecause(a), index, total, raw));
    var lb := Line(Progress(FailedBecause(b), index, total, raw));
    assert la == head + Tail(FailedBecause(a)) && lb == head + Tail(FailedBecause(b));
    if la == lb {
      assert la[|head|..] == Tail(FailedBecause(a)) && lb[|head|..] == Tail(FailedBecause(b));
      var ta, tb := ReasonText(a), ReasonText(b);
      assert Tail(FailedBecause(a)) == " [" + ta + "]\n" && Tail(FailedBecause(b)) == " [" + tb + "]\n";
      assert |ta| == |tb|;
      assert ta == Tail(FailedBecause(a))[2..2 + |ta|];
      assert tb == Tail(FailedBecause(b))[2..2 + |tb|];
      ReasonTextNamesReason(a, b);
    }
  }

  /** A track and the result the retry loop settled on. */
  datatype Job = Job(track: Track, result: DownloadResult)

  /** What the bookkeeping has produced so far: the counters, the progress
      lines and the failed tracks forwarded to the failure log, in order. */
  datatype Pool = Pool(counters: Counters, progress: seq<Progress>, forwarded: seq<Track>)

  const Start := Pool(Counters(0, 0, 0), [], [])

  /** The locked section of worker for one track. */
  function Record(p: Pool, total: nat, job: Job): (q: Pool)
    ensures Done(q.counters) == Done(p.counters) + 1
    ensures q.counters.downloaded == p.counters.downloaded + (if job.result.success && !job.result.skipped then 1 else 0)
    ensures q.counters.skipped == p.counters.skipped + (if job.result.success && job.result.skipped then 1 else 0)
    ensures q.counters.failed == p.counters.failed + (if job.result.success then 0 else 1)
    ensures |q.progress| == |p.progress| + 1 && q.progress[..|p.progress|] == p.progress
    ensures q.progress[|p.progress|].index == Done(q.counters)
    ensures q.progress[|p.progress|].total == total && q.progress[|p.progress|].raw == job.track.raw
    ensures q.forwarded == p.forwarded + (if job.result.success then [] else [job.track])
  {
    var c := p.counters;
    var r := job.result;
    if r.success && r.skipped then
      var c' := c.(skipped := c.skipped + 1);
      Pool(c', p.progress + [Progress(AlreadyExists, Done(c'), total, job.track.raw)], p.forwarded)
    else if r.success then
      var c' := c.(downloaded := c.downloaded + 1);
      Pool(c', p.progress + [Progress(Downloaded, Done(c'), total, job.track.raw)], p.forwarded)
    else
      var c' := c.(failed := c.failed + 1);
      Pool(c', p.progress + [Progress(FailedBecause(r.reason), Done(c'), total, job.track.raw)], p.forwarded + [job.track])
  }

  /** The pool's work over all jobs, in the order they reach the lock. */
  function RecordAll(p: Pool, total: nat, jobs: seq<Job>): Pool
    decreases |jobs|
  {
    if |jobs| == 0 then p else Record(RecordAll(p, total, jobs[..|jobs| - 1]), total, jobs[|jobs| - 1])
  }

  lemma RecordAllSnoc(p: Pool, total: nat, jobs: seq<Job>, job: Job)
    ensures RecordAll(p, total, jobs + [job]) == Record(RecordAll(p, total, jobs), total, job)
  {
    assert (jobs + [job])[..|jobs|] == jobs;
  }

  /** Each job is counted once and adds one progress line; nothing recorded
      before is changed. */
  lemma {:induction false} RecordAllExtends(p: Pool, total: nat, jobs: seq<Job>)
    ensures var q := RecordAll(p, total, jobs);
      && Done(q.counters) == Done(p.counters) + |jobs|
      && |q.progress| == |p.progress| + |jobs| && q.progress[..|p.progress|] == p.progress
      && |p.forwarded| <= |q.forwarded| && q.forwarded[..|p.forwarded|] == p.forwarded
    decreases |jobs|
  {
    if |jobs| > 0 {
      var init := jobs[..|jobs| - 1];
      RecordAllExtends(p, total, init);
      var q0 := RecordAll(p, total, init);
      var q := RecordAll(p, total, jobs);
      assert q == Record(q0, total, jobs[|jobs| - 1]);
      assert q.progress[..|p.progress|] == q.progress[..|q0.progress|][..|p.progress|];
      assert q.forwarded[..|p.forwarded|] == q0.forwarded[..|p.forwarded|];
    }
  }

  /** Reference definitions: the jobs of each kind, counted, and the failed
      tracks in order. */
  function CountWhere(jobs: seq<Job>, success: bool, skipped: bool): nat
    decreases |jobs|
  {
    if |jobs| == 0 then 0
    else
      var r := jobs[|jobs| - 1].result;
      CountWhere(jobs[..|jobs| - 1], success, skipped)
        + (if r.success == success && (!success || r.skipped == skipped) then 1 else 0)
  }

  function FailedTracks(jobs: seq<Job>): seq<Track>
    decreases |jobs|
  {
    if |jobs| == 0 then []
    else
      var j := jobs[|jobs| - 1];
      FailedTracks(jobs[..|jobs| - 1]) + (if j.result.success then [] else [j.track])
  }

  /** After the jobs are recorded from the start, each counter counts its kind
      of job, so the counters add up to the number of jobs. */
  lemma {:induction false} RecordAllCounts(total: nat, jobs: seq<Job>)
    ensures var c := RecordAll(Start, total, jobs).counters;
      && c == Counters(CountWhere(jobs, true, false), CountWhere(jobs, true, true), CountWhere(jobs, false, false))
      && Done(c) == |jobs|
    decreases |jobs|
  {
    if |jobs| > 0 {
      var init := jobs[..|jobs| - 1];
      var last := jobs[|jobs| - 1];
      assert jobs == init + [last];
      RecordAllCounts(total, init);
      RecordAllSnoc(Start, total, init, last);
    }
  }

  /** Progress line i carries index i + 1, the total and the raw line of job i. */
  lemma {:induction false} RecordAllProgress(total: nat, jobs: seq<Job>)
    ensures var q := RecordAll(Start, total, jobs);
      && |q.progress| == |jobs|
      && forall i :: 0 <= i < |jobs| ==>
           q.progress[i].index == i + 1 && q.progress[i].total == total && q.progress[i].raw == jobs[i].track.raw
    decreases |jobs|
  {
    if |jobs| > 0 {
      var init := jobs[..|jobs| - 1];
      var last := jobs[|jobs| - 1];
      assert jobs == init + [last];
      RecordAllProgress(total, init);
      RecordAllCounts(total, init);
      RecordAllSnoc(Start, total, init, last);
      var p := RecordAll(Start, total, init);
      var q := RecordAll(Start, total, jobs);
      forall i | 0 <= i < |init|
        ensures q.progress[i] == p.progress[i]
      {
        assert q.progress[i] == q.progress[..|p.progress|][i];
      }
      assert q.progress[|init|].index == |jobs|;
    }
  }

  /** The tracks forwarded to the failure log are exactly the failed ones, in
      order, one per failure. */
  lemma {:induction false} RecordAllForwards(total: nat, jobs: seq<Job>)
    ensures var q := RecordAll(Start, total, jobs);
      q.forwarded == FailedTracks(jobs) && |q.forwarded| == q.counters.failed
    decreases |jobs|
  {
    if |jobs| > 0 {
      var init := jobs[..|jobs| - 1];
      var last := jobs[|jobs| - 1];
      assert jobs == init + [last];
      RecordAllForwards(total, init);
      RecordAllSnoc(Start, total, init, last);
    }
  }

  /** The status of a progress line matches the job it reports. */
  lemma {:induction false} ProgressStatus(total: nat, jobs: seq<Job>)
    ensures var q := RecordAll(Start, total, jobs);
      |q.progress| == |jobs| &&
      forall i :: 0 <= i < |jobs| ==> q.progress[i].status == StatusOf(jobs[i].result)
    decreases |jobs|
  {
    if |jobs| > 0 {
      var init := jobs[..|jobs| - 1];
      var last := jobs[|jobs| - 1];
      assert jobs == init + [last];
      ProgressStatus(total, init);
      RecordAllSnoc(Start, total, init, last);
      var p := RecordAll(Start, total, init);
      var q := RecordAll(Start, total, jobs);
      forall i | 0 <= i < |init|
        ensures q.progress[i] == p.progress[i]
      {
        assert q.progress[i] == q.progress[..|p.progress|][i];
      }
    }
  }

  /** A rerun where every track is already on disk downloads and fails
      nothing. */
  lemma AllSkipped(total: nat, jobs: seq<Job>)
    requires forall i :: 0 <= i < |jobs| ==> jobs[i].result.success && jobs[i].result.skipped
    ensures RecordAll(Start, total, jobs).counters == Counters(0, |jobs|, 0)
    ensures RecordAll(Start, total, jobs).forwarded == []
  {
    CountNone(jobs, true, false);
    CountNone(jobs, false, false);
    RecordAllCounts(total, jobs);
    RecordAllForwards(total, jobs);
  }

  lemma {:induction false} CountNone(jobs: seq<Job>, success: bool, skipped: bool)
    requires forall i :: 0 <= i < |jobs| ==> jobs[i].result.success && jobs[i].result.skipped
    requires !(success && skipped)
    ensures CountWhere(jobs, success, skipped) == 0
    decreases |jobs|
  {
    if |jobs| > 0 {
      CountNone(jobs[..|jobs| - 1], success, skipped);
    }
  }

  /** The failed tracks are a subsequence of the jobs' tracks: each comes from
      some job, and their order is the jobs' order. */
  lemma {:induction false} FailedTracksFrom(jobs: seq<Job>)
    ensures forall k :: 0 <= k < |FailedTracks(jobs)| ==>
      exists i :: 0 <= i < |jobs| && jobs[i].track == FailedTracks(jobs)[k] && !jobs[i].result.success
    decreases |jobs|
  {
    if |jobs| > 0 {
      var init := jobs[..|jobs| - 1];
      FailedTracksFrom(init);
      var f := FailedTracks(jobs);
      var f0 := FailedTracks(init);
      var last := jobs[|jobs| - 1];
      assert f == f0 + (if last.result.success then [] else [last.track]);
      forall k | 0 <= k < |f|
        ensures exists i :: 0 <= i < |jobs| && jobs[i].track == f[k] && !jobs[i].result.success
      {
        if k < |f0| {
          var i :| 0 <= i < |init| && init[i].track == f0[k] && !init[i].result.success;
          assert jobs[i] == init[i] && f[k] == f0[k];
        } else {
          assert !last.result.success && last.track == f[k];
        }
      }
    } else {
      assert FailedTracks(jobs) == [];
    }
  }

  function Tracks(jobs: seq<Job>): (ts: seq<Track>)
    ensures |ts| == |jobs| && forall i :: 0 <= i < |jobs| ==> ts[i] == jobs[i].track
  {
    seq(|jobs|, i requires 0 <= i < |jobs| => jobs[i].track)
  }

  /** Dropping the successful jobs keeps the tracks well formed. */
  lemma {:induction false} FailedTracksKeep(jobs: seq<Job>, parse: string -> Option<Track>)
    requires DistinctRaws(Tracks(jobs)) && Faithful(Tracks(jobs), parse)
    ensures DistinctRaws(FailedTracks(jobs)) && Faithful(FailedTracks(jobs), parse)
    decreases |jobs|
  {
    if |jobs| > 0 {
      var init := jobs[..|jobs| - 1];
      var last := jobs[|jobs| - 1];
      assert Tracks(init) == Tracks(jobs)[..|init|];
      FailedTracksKeep(init, parse);
      assert Tracks(jobs)[|jobs| - 1] == last.track;
      if !last.result.success {
        var f0 := FailedTracks(init);
        FailedTracksFrom(init);
        forall k | 0 <= k < |f0| ensures f0[k].raw != last.track.raw {
          var i :| 0 <= i < |init| && init[i].track == f0[k] && !init[i].result.success;
          assert Tracks(jobs)[i] == f0[k];
        }
        AppendKeeps(f0, last.track, parse);
      }
    }
  }

  lemma AppendKeeps(ts: seq<Track>, t: Track, parse: string -> Option<Track>)
    requires DistinctRaws(ts) && Faithful(ts, parse)
    requires TrimSpace(t.raw) == t.raw && parse(t.raw) == Some(t)
    requires forall k :: 0 <= k < |ts| ==> ts[k].raw != t.raw
    ensures DistinctRaws(ts + [t]) && Faithful(ts + [t], parse)
  {
    var us := ts + [t];
    assert forall k :: 0 <= k < |ts| ==> us[k] == ts[k];
  }

  /** Jobs for distinct tracks of a well-formed playlist, reaching the lock in
      any order, are themselves well formed. */
  lemma JobsWellFormed(ts: seq<Track>, jobs: seq<Job>, parse: string -> Option<Track>)
    requires DistinctRaws(ts) && Faithful(ts, parse)
    requires forall i :: 0 <= i < |jobs| ==> jobs[i].track in ts
    requires forall i, j :: 0 <= i < j < |jobs| ==> jobs[i].track != jobs[j].track
    ensures DistinctRaws(Tracks(jobs)) && Faithful(Tracks(jobs), parse)
  {
    var us := Tracks(jobs);
    forall i, j | 0 <= i < j < |us| ensures us[i].raw != us[j].raw {
      var p :| 0 <= p < |ts| && ts[p] == us[i];
      var q :| 0 <= q < |ts| && ts[q] == us[j];
      assert p != q;
    }
  }

  /** Reading the failure log back as a playlist gives exactly the failed
      tracks, in the order they failed, whatever order the workers settle the
      tracks of a playlist in. */
  lemma FailureLogReadsBack(total: nat, lines: seq<string>, jobs: seq<Job>)
    requires forall i :: 0 <= i < |jobs| ==> jobs[i].track in Parse(lines)
    requires forall i, j :: 0 <= i < j < |jobs| ==> jobs[i].track != jobs[j].track
    ensures var log := RecordAll(Start, total, jobs).forwarded;
      Parse(Raws(log)) == log && log == FailedTracks(jobs)
  {
    ParseWellFormed(lines);
    JobsWellFormed(Parse(lines), jobs, ParseLine);
    FailedTracksKeep(jobs, ParseLine);
    RecordAllForwards(total, jobs);
    ReparseRaws(FailedTracks(jobs));
  }

  /** The failure log is opened for appending, so after a run it holds the
      lines `prior` left by earlier runs followed by this run's failed lines.
      Read back as a playlist, it gives the earlier runs' tracks and this run's
      failed tracks and nothing else; when no failed line was in the file
      already, this run's failures follow the earlier tracks in the order they
      failed. */
  lemma FailureLogAppended(total: nat, prior: seq<string>, lines: seq<string>, jobs: seq<Job>)
    requires forall i :: 0 <= i < |jobs| ==> jobs[i].track in Parse(lines)
    requires forall i, j :: 0 <= i < j < |jobs| ==> jobs[i].track != jobs[j].track
    ensures var log := RecordAll(Start, total, jobs).forwarded;
      forall t :: t in Parse(prior + Raws(log)) <==> t in Parse(prior) || t in log
    ensures var log := RecordAll(Start, total, jobs).forwarded;
      (forall i :: 0 <= i < |log| ==> log[i].raw !in Trimmed(prior)) ==> Parse(prior + Raws(log)) == Parse(prior) + log
  {
    ParseWellFormed(lines);
    JobsWellFormed(Parse(lines), jobs, ParseLine);
    FailedTracksKeep(jobs, ParseLine);
    RecordAllForwards(total, jobs);
    var log := FailedTracks(jobs);
    ReadBackAppended(prior, log);
    if forall i :: 0 <= i < |log| ==> log[i].raw !in Trimmed(prior) {
      ReadBackAppendedFresh(prior, log);
    }
  }

  /** Every printed line shows its icon, its position among all tracks, its
      label, the raw playlist line and, for a failure, the bracketed reason. */
  lemma PrintedLines(total: nat, jobs: seq<Job>)
    ensures var q := RecordAll(Start, total, jobs);
      |q.progress| == |jobs| &&
      forall i :: 0 <= i < |jobs| ==>
        var s := StatusOf(jobs[i].result);
        Line(q.progress[i]) == Icon(s) + Position(i + 1, total) + Label(s) + jobs[i].track.raw + Tail(s)
  {
    RecordAllProgress(total, jobs);
    ProgressStatus(total, jobs);
  }

  /** With the settings of NewDownloader a track is tried at most three times,
      pausing one and then two seconds between failed attempts. */
  method RetryWithDefaults(workers: int, outcome: nat -> DownloadResult) returns (r: Retried)
    ensures 1 <= r.attempts <= 3 && r.result == outcome(r.attempts - 1)
    ensures r.attempts < 3 ==> r.result.success
    ensures r.pauses <= [1, 2]
  {
    r := Retry(NewDownloader(workers).retryCount, outcome);
    assert r.pauses == [1, 2][..|r.pauses|];
  }
}
