# Model acquisition and streaming helpers of the demo gateway, in Dafny

The gateway downloads one large model file at start-up, reports how far the
download has got, and streams the inference engine's output to HTTP clients.
This project models the four pieces of the backend that hold logic:

- `AsyncFileDownloader` (backend/utils/downloader.py), module `Downloader`: a
  class with the three fields `totalSize`, `downloadedSize` and
  `isDownloading`. The async generator `download_chunks` is split into the
  steps a consumer observes: `Begin` (the single-flight guard, the flag and
  the counter reset), `Respond` (status check and Content-Length),
  `NextChunk` (count, then yield) and `End` (exhaustion or a lost connection,
  both running the `finally` that clears the flag). `progress` is the pure
  function `ProgressOf`; `get_content_length` is a static function of the
  probe response, so it cannot touch a field.
- `ModelDownloadService` (backend/services/llm_downloader.py), module
  `LlmDownloader`: a class with the downloader and the `progress` field.
  `DownloadModel` is proved equal to the pure function `Acquire`, which gives
  the files, the progress, the downloader's fields, the HTTP requests issued
  and the outcome of one call of `download_model`; the lemmas beside it state
  what the acquisition promises. The filesystem is a `map<Path, seq<byte>>`.
- `Settings.MODEL_PATH` and `Settings.MODEL_NAME` (backend/settings.py),
  modules `Paths` and `Settings`: `str.split("/")` with its inverse
  `"/".join`, the last segment of the URI, the pathlib join and
  `str.removesuffix`, and the default values.
- `LLMInteractionService.generate_response` (backend/services/llm_service.py),
  module `LlmService`: the request sent to the engine and the map from the
  engine's streamed deltas to text fragments. The engine is a function
  parameter that returns the `content` of each chunk's first-choice delta, or
  `None` when the delta has none.

The network is an input: a `Response` gives the status, the Content-Length
header (as text, parsed with the grammar of section 8.6 of RFC 9110), the
chunks of the body and whether reading fails after them. A status from 400
up raises, as `raise_for_status` does.

Two consequences of the code are stated as lemmas. Nothing in
`download_model` sets progress to 100 after the chunk loop
(backend/services/llm_downloader.py:47-56): it only copies the downloader's
progress after each chunk, so a download whose stream has no Content-Length
ends at 0 (`NoContentLengthLeavesProgressAtZero`) and one with no chunks keeps
the previous value. The file is opened with `'wb'`, and so truncated, at
backend/services/llm_downloader.py:46, before the generator's single-flight
guard runs at backend/utils/downloader.py:45, so a refused acquisition leaves
an empty file (`GuardReleased`).

## Model

| member | source | states |
|---|---|---|
| `Downloader.ParseDecimal` | backend/utils/downloader.py:56 | `int()` of a header accepts exactly the non-empty runs of ASCII digits, and gives 0 exactly when every digit is '0' |
| `Downloader.ParseShowDecimal` | backend/utils/downloader.py:81-82 | `int()` of a Content-Length a server writes (decimal, no leading zeros) gives that length back |
| `Downloader.StreamSize` | backend/utils/downloader.py:56 | a missing header gives 0; a header that is not a run of digits, the empty one included, raises; a number written in decimal, with any number of leading zeros ("007"), gives that number |
| `Downloader.LeadingZeros` | backend/utils/downloader.py:81-82 | leading zeros before a run of digits keep it a run of digits and do not change its value |
| `Downloader.ShowDecimalInjective` | backend/utils/downloader.py:81-82 | a header that parses to n is, written as zeros followed by a decimal number, only ever that number n |
| `Downloader.CanonicalIsShow` | backend/utils/downloader.py:81-82 | a run of digits without a leading zero, or the single digit "0", is exactly how its value is written back in decimal |
| `Downloader.DigitsAreZerosThenDecimal` | backend/utils/downloader.py:56 | every header `int()` accepts is some zeros followed by the decimal form of its value, so `StreamSize` gives every digit header its value |
| `Downloader.AsyncFileDownloader.GetContentLength` | backend/utils/downloader.py:66-82 | a status from 400 up raises; a missing or empty header gives 0; otherwise the parsed number (leading zeros ignored), or the parse error; no field is read or written |
| `Downloader.ProgressOf` | backend/utils/downloader.py:22-33 | the `progress` property (`AsyncFileDownloader.Progress` of the fields): 0 while the total is 0, never negative, and at most 100 while downloaded <= total |
| `Downloader.ProgressScales` | backend/utils/downloader.py:30-33 | progress is 0 when the total is 0, whatever was downloaded; otherwise progress * total == downloaded * 100 |
| `Downloader.ProgressFull` | backend/utils/downloader.py:33 | with a non-zero total, progress is exactly 100 if and only if downloaded equals total |
| `Downloader.ProgressBounds` | backend/utils/downloader.py:22-33 | progress is never negative and is at most 100 while downloaded <= total; it exceeds 100 beyond the total, because nothing clamps it |
| `Downloader.ProgressMonotone` | backend/utils/downloader.py:33 | more bytes downloaded never give a smaller progress for the same total |
| `Downloader.AsyncFileDownloader.constructor` | backend/utils/downloader.py:8-20 | a new downloader keeps its URL and path, with total 0, downloaded 0 and the flag clear |
| `Downloader.AsyncFileDownloader.Begin` | backend/utils/downloader.py:45-49 | with the flag set it raises "already in progress" and changes no field; otherwise it sets the flag, resets the counter and keeps the old total |
| `Downloader.AsyncFileDownloader.Respond` | backend/utils/downloader.py:52-56 | a failing status or an unparsable Content-Length raises and clears the flag (the `finally`); otherwise the total becomes the Content-Length, or 0 without one |
| `Downloader.AsyncFileDownloader.NextChunk` | backend/utils/downloader.py:58-60 | the counter grows by the chunk's length before the chunk is yielded unchanged |
| `Downloader.AsyncFileDownloader.End` | backend/utils/downloader.py:58-64 | exhaustion returns and a lost connection raises; both clear the flag and keep the counters |
| `LlmDownloader.Acquire` | backend/services/llm_downloader.py:16-59 | one `download_model` call changes or creates no file but the destination, issues the size probe and at most one stream request, and a failure that touches the downloader leaves its flag clear; the lemmas below state each branch |
| `LlmDownloader.ModelDownloadService.constructor` | backend/services/llm_downloader.py:7-14 | a new service holds its downloader with progress 0 |
| `LlmDownloader.ModelDownloadService.GetProgress` | backend/services/llm_downloader.py:61-62 | returns the stored progress and changes nothing |
| `LlmDownloader.ModelDownloadService.WriteChunks` | backend/services/llm_downloader.py:46-50 | after the loop the file is its old contents followed by every chunk in order, the counter has grown by their total length, and the progress is the downloader's, or unchanged when no chunk came |
| `LlmDownloader.ModelDownloadService.DownloadModel` | backend/services/llm_downloader.py:16-59 | files, progress, downloader fields, requests and outcome are those `Acquire` gives for the old state and the two responses |
| `LlmDownloader.ProbeFailureChangesNothing` | backend/services/llm_downloader.py:25 | a failing size probe raises with no file written, no stream requested and progress and downloader unchanged |
| `LlmDownloader.AlreadyPresentIff` | backend/services/llm_downloader.py:29-35 | the download is skipped if and only if the file exists with the probed size; then progress is 100, the file is unchanged and no stream is requested |
| `LlmDownloader.DownloadWritesChunks` | backend/services/llm_downloader.py:41-56 | a completed download makes the file exactly the chunks concatenated in order, changes no other file, issues one probe and one stream, and reports a size mismatch without raising |
| `LlmDownloader.ProgressAfterDownload` | backend/services/llm_downloader.py:47-49 | after a completed download with chunks, progress is 100 if and only if the bytes received equal the stream's non-zero Content-Length; with no chunk it keeps its previous value |
| `LlmDownloader.NoContentLengthLeavesProgressAtZero` | backend/services/llm_downloader.py:47-56 | a completed download whose stream has no Content-Length writes every byte yet leaves progress at 0 |
| `LlmDownloader.BrokenStreamKeepsWrittenChunks` | backend/services/llm_downloader.py:57-59 | a lost connection raises with the chunks received so far in the file, the progress they gave, and the flag clear |
| `LlmDownloader.GuardReleased` | backend/utils/downloader.py:45-64 | an acquisition that found the flag clear leaves it clear on every path; one that found it set is refused (iff the probe passed and the file needed fetching) after truncating the file, with the downloader's fields unchanged |
| `LlmDownloader.SecondAcquireShortCircuits` | backend/services/llm_downloader.py:29-35 | acquiring again after a download of the probed size finds the file, sets progress 100 and requests no stream |
| `LlmDownloader.ProgressStaysPercentage` | backend/services/llm_downloader.py:47-49 | if the stream delivers no more than a non-zero size it announces, or announces no size (zero or missing), the stored progress stays within 0 and 100 |
| `Paths.LastSegment` | backend/settings.py:17 | `split("/")[-1]` has no '/', ends the string, and follows its last '/' or is the whole string |
| `Paths.Split` | backend/settings.py:17 | `split("/")` gives at least one piece, no piece contains '/', and joining the pieces with '/' gives the string back |
| `Paths.SplitLastIsLastSegment` | backend/settings.py:17 | the last piece of the split is the part after the last '/', or the whole string when there is none |
| `Paths.Child` | backend/settings.py:18 | joining a name under a folder appends it as the last component, except an empty or "." name, which pathlib drops |
| `Settings.Filename` | backend/settings.py:17 | the file name has no '/', ends the URI, and follows its last '/' or is the whole URI |
| `Settings.ModelPath` | backend/settings.py:15-19 | `MODEL_PATH` is the folder with the file name as one more component, relative or absolute like the folder |
| `Settings.RemoveSuffix` | backend/settings.py:24 | with the suffix present, the result followed by the suffix is the string; otherwise the string is unchanged |
| `Settings.ModelName` | backend/settings.py:21-25 | `MODEL_NAME` has no '/' and is a prefix of the file name |
| `Settings.ModelNameRoundTrip` | backend/settings.py:21-25 | `MODEL_NAME` is a prefix of the file name without '/'; appending ".gguf" gives the file name back when it had that extension, and otherwise it is the file name |
| `Settings.ModelNameBeginsModelPath` | backend/settings.py:15-25 | the last component of `MODEL_PATH` is the file name and begins with `MODEL_NAME` |
| `Settings.RemovesOneSuffix` | backend/settings.py:24 | only one extension is removed: "a.gguf.gguf" gives "a.gguf" |
| `Settings.NamesOfGgufUri` | backend/settings.py:15-25 | a URI dir/stem.gguf gives the model name stem and the path folder/stem.gguf |
| `Settings.DefaultUri` | backend/settings.py:9 | the default URI, character for character |
| `Settings.DefaultNames` | backend/settings.py:9-25 | with the defaults the model name is llava-v1.5-7b-Q4_K_M and the path is models/llava-v1.5-7b-Q4_K_M.gguf |
| `Settings.DefaultPathString` | backend/settings.py:9-19 | the default path written out as text is "models/llava-v1.5-7b-Q4_K_M.gguf" |
| `LlmService.Request` | backend/services/llm_service.py:15-28 | the engine gets the history, the token limit (200 by default) and streaming on; a missing stop list becomes the empty list and a given one passes unchanged |
| `LlmService.Fragment` | backend/services/llm_service.py:30 | `.get('content', '')`: the chunk's content when present, "" when absent |
| `LlmService.Fragments` | backend/services/llm_service.py:24-30 | one fragment per streamed chunk, in order: the content when present, "" when absent |
| `LlmService.GenerateResponse` | backend/services/llm_service.py:15-30 | one fragment per chunk the engine streams for the request, and the fragments together spell the text the engine produced |
| `LlmService.FragmentsSpellContents` | backend/services/llm_service.py:24-30 | the fragments concatenated equal the present contents concatenated |
| `LlmService.GenerateResponseDefaults` | backend/services/llm_service.py:15-29 | with the defaults the response is the fragments of the engine's stream for 200 tokens, no stop sequence and streaming on, one per chunk |
| `LlmService.StubEngineFragments` | backend/services/llm_service.py:24-30 | an engine streaming "Hel" and "lo" yields exactly those two fragments, whose concatenation is "Hello" |

## Left out

- HTTP client details: the aiohttp session, `ssl=False`, `timeout=0`, the `Accept-Encoding: identity` header and redirects are not modelled; each response is an input.
- Chunk sizes: `iter_chunked(8192)` yields pieces of at most 8192 bytes; the model takes the chunks as given, and no stated property depends on their sizes.
- Downloader.StreamSize: Python's `int()` also accepts surrounding whitespace, a sign, underscores and non-ASCII digits; the model accepts only the RFC 9110 form (one or more ASCII digits, leading zeros included) and treats every other header as the `ValueError` path.
- Downloader.ProgressOf: computed on exact reals; the floating-point rounding of `/` and `* 100` is not modelled.
- Concurrency: the background task started in backend/app.py and progress reads that interleave with the download are not modelled; the single-flight guard is a sequential state machine.
- A failure while writing the file: the model's only exception inside the loop is a lost connection; when `file.write` raises, the async generator is closed later by the event loop's finaliser, and that timing is not modelled.
- Logging: every `print` in backend/services/llm_downloader.py is left out; the size-mismatch warning is the `sizeMatches` flag of the outcome.
- Directory creation and `stat`: `mkdir` is a step that always succeeds and changes no file, and a file's size is the length of its contents.
- The `model_gguf_url` argument of `download_model` is only printed, and the downloader's `download_path` is never read, so neither affects the model.
- The inference engine (llama_cpp), the `lru_cache` around its construction, and `CHAT_FORMAT`, which is only passed to it, are not modelled; the engine is a function parameter.
- The FastAPI wiring (backend/app.py, backend/app_state.py, backend/dependencies, backend/api) is not part of this model, including the list comprehension that copies the request's messages into the history.
- Settings loading: pydantic's reading of the environment and the conversion of the `MODEL_FOLDER` string into a path are not modelled; the folder is given as a path.
