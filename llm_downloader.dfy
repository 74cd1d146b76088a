/** backend/services/llm_downloader.py: fetch the model file unless a file of
    the expected size is already there, writing it chunk by chunk and keeping
    the progress that the model-info endpoint reports. The filesystem is a map
    from paths to file contents. */
module LlmDownloader {
  import opened Wrappers
  import opened Paths
  import opened Downloader

  type FileSystem = map<Path, seq<byte>>

  /** The HTTP GETs an acquisition issues. */
  datatype Request = SizeProbe | ChunkStream

  /** How an acquisition that did not raise ended: the file was already there,
      or it was downloaded and its size does or does not match the probe (a
      mismatch is only a warning). */
  datatype Acquired = AlreadyPresent | Downloaded(sizeMatches: bool)

  /** Everything one acquisition leaves behind. */
  datatype Run = Run(
    files: FileSystem,
    progress: real,
    fetcher: FetcherState,
    requests: seq<Request>,
    result: Result<Acquired, Error>)

  /** `download_model` as a function of the state it starts from and of the
      two responses the network gives: the probe's and the stream's. */
  function Acquire(files: FileSystem, dest: Path, progress: real, fetcher: FetcherState,
                   probe: Response, stream: Response): (run: Run)
    ensures run.files.Keys <= files.Keys + {dest}
    ensures forall p :: p in files && p != dest ==> p in run.files && run.files[p] == files[p]
    ensures run.requests == [SizeProbe] || run.requests == [SizeProbe, ChunkStream]
    ensures run.result.Failure? && run.fetcher != fetcher ==> !run.fetcher.inFlight
  {
    match AsyncFileDownloader.GetContentLength(probe)
    case Failure(e) => Run(files, progress, fetcher, [SizeProbe], Failure(e))
    case Success(expected) =>
      if dest in files && |files[dest]| == expected then
        Run(files, 100.0, fetcher, [SizeProbe], Success(AlreadyPresent))
      else if fetcher.inFlight then
        Run(files[dest := []], progress, fetcher, [SizeProbe], Failure(AlreadyInProgress))
      else
        var released := FetcherState(fetcher.total, 0, false);
        if !Ok(stream.status) then
          Run(files[dest := []], progress, released, [SizeProbe, ChunkStream], Failure(HttpStatus(stream.status)))
        else
          match StreamSize(stream.contentLength)
          case Failure(e) =>
            Run(files[dest := []], progress, released, [SizeProbe, ChunkStream], Failure(e))
          case Success(total) =>
            var body := Concat(stream.body);
            Run(files[dest := body],
                if stream.body == [] then progress else ProgressOf(|body|, total),
                FetcherState(total, |body|, false),
                [SizeProbe, ChunkStream],
                if stream.broken then Failure(ConnectionLost) else Success(Downloaded(|body| == expected)))
  }

  /** A probe that raises ends the acquisition before anything is written,
      requested or counted. */
  lemma ProbeFailureChangesNothing(files: FileSystem, dest: Path, progress: real, fetcher: FetcherState,
                                   probe: Response, stream: Response)
    requires AsyncFileDownloader.GetContentLength(probe).Failure?
    ensures var run := Acquire(files, dest, progress, fetcher, probe, stream);
      && run.files == files && run.progress == progress && run.fetcher == fetcher
      && run.requests == [SizeProbe]
      && run.result == Failure(AsyncFileDownloader.GetContentLength(probe).error)
  {
  }

  /** The file is taken as already there exactly when it exists with the
      probed size; then the progress is 100, the file is untouched and no
      chunk is requested. */
  lemma AlreadyPresentIff(files: FileSystem, dest: Path, progress: real, fetcher: FetcherState,
                          probe: Response, stream: Response)
    ensures var run := Acquire(files, dest, progress, fetcher, probe, stream);
      var size := AsyncFileDownloader.GetContentLength(probe);
      run.result == Success(AlreadyPresent) <==> size.Success? && dest in files && |files[dest]| == size.value
    ensures var run := Acquire(files, dest, progress, fetcher, probe, stream);
      run.result == Success(AlreadyPresent) ==>
        && run.files == files && run.progress == 100.0 && run.fetcher == fetcher
        && ChunkStream !in run.requests
  {
  }

  /** A download that completes leaves the chunks, concatenated in order, as
      the whole file, touches no other file, issues one probe and one stream,
      and reports whether the size matches the probe without raising. */
  lemma DownloadWritesChunks(files: FileSystem, dest: Path, progress: real, fetcher: FetcherState,
                             probe: Response, stream: Response)
    requires Acquire(files, dest, progress, fetcher, probe, stream).result.Success?
    requires Acquire(files, dest, progress, fetcher, probe, stream).result.value.Downloaded?
    ensures var run := Acquire(files, dest, progress, fetcher, probe, stream);
      && run.files == files[dest := Concat(stream.body)]
      && run.requests == [SizeProbe, ChunkStream]
      && run.fetcher == FetcherState(StreamSize(stream.contentLength).value, |Concat(stream.body)|, false)
      && (run.result.value.sizeMatches
          <==> |Concat(stream.body)| == AsyncFileDownloader.GetContentLength(probe).value)
  {
  }

  /** After a download with at least one chunk, the progress is 100 exactly
      when the bytes received equal the stream's Content-Length; with no chunk
      it keeps the value it had. Nothing forces it to 100. */
  lemma ProgressAfterDownload(files: FileSystem, dest: Path, progress: real, fetcher: FetcherState,
                              probe: Response, stream: Response)
    requires Acquire(files, dest, progress, fetcher, probe, stream).result.Success?
    requires Acquire(files, dest, progress, fetcher, probe, stream).result.value.Downloaded?
    ensures var run := Acquire(files, dest, progress, fetcher, probe, stream);
      stream.body != [] ==>
        (run.progress == 100.0 <==> StreamSize(stream.contentLength).value == |Concat(stream.body)| > 0)
    ensures stream.body == [] ==> Acquire(files, dest, progress, fetcher, probe, stream).progress == progress
  {
    var run := Acquire(files, dest, progress, fetcher, probe, stream);
    if stream.body != [] {
      var total := StreamSize(stream.contentLength).value;
      if total > 0 {
        ProgressFull(|Concat(stream.body)|, total);
      }
    }
  }

  /** A stream without Content-Length completes with the progress at 0, even
      though every byte was written. */
  lemma NoContentLengthLeavesProgressAtZero(files: FileSystem, dest: Path, progress: real,
                                            fetcher: FetcherState, probe: Response, stream: Response)
    requires stream.contentLength.None? && stream.body != []
    requires Acquire(files, dest, progress, fetcher, probe, stream).result.Success?
    requires Acquire(files, dest, progress, fetcher, probe, stream).result.value.Downloaded?
    ensures Acquire(files, dest, progress, fetcher, probe, stream).progress == 0.0
    ensures Acquire(files, dest, progress, fetcher, probe, stream).files[dest] == Concat(stream.body)
  {
  }

  /** A stream that breaks raises with the chunks received so far in the file
      and the progress they gave. */
  lemma BrokenStreamKeepsWrittenChunks(files: FileSystem, dest: Path, progress: real,
                                       fetcher: FetcherState, probe: Response, stream: Response)
    requires Acquire(files, dest, progress, fetcher, probe, stream).result == Failure(ConnectionLost)
    ensures var run := Acquire(files, dest, progress, fetcher, probe, stream);
      && stream.broken
      && run.files == files[dest := Concat(stream.body)]
      && run.progress == (if stream.body == [] then progress
                          else ProgressOf(|Concat(stream.body)|, StreamSize(stream.contentLength).value))
      && !run.fetcher.inFlight
  {
  }

  /** The single-flight flag is released on every path out of an acquisition
      that found it clear, so the next one passes the guard; one that found it
      set is refused after truncating the file and changes no counter. */
  lemma GuardReleased(files: FileSystem, dest: Path, progress: real, fetcher: FetcherState,
                      probe: Response, stream: Response)
    ensures !fetcher.inFlight ==> !Acquire(files, dest, progress, fetcher, probe, stream).fetcher.inFlight
    ensures fetcher.inFlight ==> Acquire(files, dest, progress, fetcher, probe, stream).fetcher == fetcher
    ensures var run := Acquire(files, dest, progress, fetcher, probe, stream);
      run.result == Failure(AlreadyInProgress) <==>
        && fetcher.inFlight
        && AsyncFileDownloader.GetContentLength(probe).Success?
        && !(dest in files && |files[dest]| == AsyncFileDownloader.GetContentLength(probe).value)
    ensures var run := Acquire(files, dest, progress, fetcher, probe, stream);
      run.result == Failure(AlreadyInProgress) ==> run.files == files[dest := []] && run.progress == progress
  {
  }

  /** Acquiring again after a download of the probed size finds the file and
      downloads nothing, whatever the stream would have been. */
  lemma SecondAcquireShortCircuits(files: FileSystem, dest: Path, progress: real, fetcher: FetcherState,
                                   probe: Response, stream: Response, stream2: Response)
    requires Acquire(files, dest, progress, fetcher, probe, stream).result == Success(Downloaded(true))
    ensures var run := Acquire(files, dest, progress, fetcher, probe, stream);
      Acquire(run.files, dest, run.progress, run.fetcher, probe, stream2)
        == Run(run.files, 100.0, run.fetcher, [SizeProbe], Success(AlreadyPresent))
  {
  }

  /** When the stream announces a non-zero size and delivers no more, or
      announces none, the progress stays a percentage. */
  lemma ProgressStaysPercentage(files: FileSystem, dest: Path, progress: real, fetcher: FetcherState,
                                probe: Response, stream: Response)
    requires 0.0 <= progress <= 100.0
    requires StreamSize(stream.contentLength).Success? && StreamSize(stream.contentLength).value > 0 ==>
               |Concat(stream.body)| <= StreamSize(stream.contentLength).value
    ensures 0.0 <= Acquire(files, dest, progress, fetcher, probe, stream).progress <= 100.0
  {
    var size := StreamSize(stream.contentLength);
    if size.Success? {
      ProgressBounds(|Concat(stream.body)|, size.value);
    }
  }

  class ModelDownloadService {
    const downloader: AsyncFileDownloader
    var progress: real

    constructor (downloader: AsyncFileDownloader)
      ensures this.downloader == downloader && progress == 0.0
    {
      this.downloader := downloader;
      progress := 0.0;
    }

    /** `get_progress`: the stored progress, read without changing anything. */
    method GetProgress() returns (p: real)
      ensures p == progress
    {
      p := progress;
    }

    /** The `async for` of `download_model`: each chunk the downloader yields
        is appended to the file, then the progress is copied. */
    method WriteChunks(files: FileSystem, dest: Path, body: seq<seq<byte>>) returns (files': FileSystem)
      requires dest in files && downloader.isDownloading
      modifies this`progress, downloader
      ensures files' == files[dest := files[dest] + Concat(body)]
      ensures downloader.State() == old(downloader.State()).(downloaded := old(downloader.downloadedSize) + |Concat(body)|)
      ensures progress == if body == [] then old(progress) else downloader.Progress()
    {
      var start := files[dest];
      files' := files;
      var i := 0;
      assert body[..i] == [] && start + Concat<byte>([]) == start;
      while i < |body|
        invariant 0 <= i <= |body|
        invariant files' == files[dest := start + Concat(body[..i])]
        invariant downloader.State() == old(downloader.State()).(downloaded := old(downloader.downloadedSize) + |Concat(body[..i])|)
        invariant progress == if i == 0 then old(progress) else downloader.Progress()
      {
        var chunk := downloader.NextChunk(body[i]);
        assert body[..i + 1] == body[..i] + [chunk];
        ConcatSnoc(body[..i], chunk);
        assert start + Concat(body[..i + 1]) == start + Concat(body[..i]) + chunk;
        files' := files'[dest := files'[dest] + chunk];
        progress := downloader.Progress();
        i := i + 1;
      }
      assert body[..i] == body;
    }

    /** `download_model`: probe, short-circuit on a file of the expected size,
        otherwise truncate the file and append each chunk as it arrives,
        copying the downloader's progress after every write. */
    method DownloadModel(files: FileSystem, dest: Path, probe: Response, stream: Response)
      returns (files': FileSystem, requests: seq<Request>, r: Result<Acquired, Error>)
      modifies this`progress, downloader
      ensures Run(files', progress, downloader.State(), requests, r)
           == Acquire(files, dest, old(progress), old(downloader.State()), probe, stream)
    {
      requests := [SizeProbe];
      var size := AsyncFileDownloader.GetContentLength(probe);
      if size.Failure? {
        return files, requests, Failure(size.error);
      }
      var expected := size.value;
      if dest in files && |files[dest]| == expected {
        progress := 100.0;
        return files, requests, Success(AlreadyPresent);
      }
      // The directory is created, then the file is opened for writing, which truncates it.
      files' := files[dest := []];
      var begun := downloader.Begin();
      if begun.Fail? {
        return files', requests, Failure(begun.error);
      }
      requests := requests + [ChunkStream];
      var responded := downloader.Respond(stream);
      if responded.Fail? {
        return files', requests, Failure(responded.error);
      }
      files' := WriteChunks(files', dest, stream.body);
      assert [] + Concat(stream.body) == Concat(stream.body);
      var ended := downloader.End(stream.broken);
      if ended.Fail? {
        return files', requests, Failure(ended.error);
      }
      r := Success(Downloaded(|files'[dest]| == expected));
    }
  }
}
