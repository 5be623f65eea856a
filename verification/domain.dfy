/** The values the downloader passes between its parts. */
module Domain {

  datatype Option<+T> = None | Some(value: T)

  /** One playlist entry. `raw` is the trimmed playlist line: it identifies the
      track within a run and is what the failure log records. */
  datatype Track = Track(artist: string, title: string, raw: string)

  /** Why an attempt failed. The declaration order matters: Go's zero value of
      this enumeration is NetworkError. */
  datatype FailureReason = NetworkError | NotFound | UnknownError

  /** The outcome of one download attempt. `skipped` means a finished file was
      already on disk; `reason` is meaningful only when `success` is false. */
  datatype DownloadResult = DownloadResult(success: bool, skipped: bool, reason: FailureReason, message: string)

  /** Go's zero DownloadResult: a failure with the zero reason and no message. */
  const ZeroResult := DownloadResult(false, false, NetworkError, "")

  function Failed(reason: FailureReason, message: string): DownloadResult {
    DownloadResult(false, false, reason, message)
  }

  /** The downloader's settings. With at least one worker, `workers` decides
      only how much runs in parallel, which the sequential model does not
      observe. With zero or fewer, Download starts no worker and records no
      track; the model does not cover that case. */
  datatype Config = Config(workers: int, retryCount: int, skipExists: bool, proxy: string)

  /** The proxy the program is configured with (PROXY_URL). */
  const DefaultProxy := "http://localhost:8881"

  /** NewDownloader: two retries, skipping of finished files, the configured proxy. */
  function NewDownloader(workers: int): (cfg: Config)
    ensures cfg.workers == workers && cfg.retryCount == 2 && cfg.skipExists && cfg.proxy == DefaultProxy
  {
    Config(workers, 2, true, DefaultProxy)
  }

  /** SetProxy; the empty string turns the proxy off. */
  function SetProxy(cfg: Config, proxyUrl: string): (r: Config)
    ensures r.proxy == proxyUrl
    ensures r.workers == cfg.workers && r.retryCount == cfg.retryCount && r.skipExists == cfg.skipExists
  {
    cfg.(proxy := proxyUrl)
  }
}
