/** backend/utils/downloader.py: a downloader that fetches one URL in chunks
    and counts the bytes it has handed out. The network is an input: each
    HTTP response is given as its status, its Content-Length header, the
    chunks of its body and whether the connection breaks after them. */
module Downloader {
  import opened Wrappers
  import opened Paths

  newtype byte = x: int | 0 <= x < 256

  datatype Response = Response(
    status: nat,                    // the HTTP status code
    contentLength: Option<string>,  // the Content-Length header, if sent
    body: seq<seq<byte>>,           // the chunks delivered, in order
    broken: bool)                   // whether reading fails after the last of them

  datatype Error =
    | HttpStatus(status: nat)            // raise_for_status on a 4xx or 5xx response
    | InvalidContentLength(text: string) // int() of a header that is not a number
    | AlreadyInProgress                  // the single-flight guard
    | ConnectionLost                     // the body stops with an exception

  /** `raise_for_status` raises exactly for statuses from 400 up. */
  predicate Ok(status: nat)
  {
    status < 400
  }

  // ---------------------------------------------------------------------
  // Content-Length values (section 8.6 of RFC 9110: one or more digits)

  predicate IsDigit(c: char)
  {
    '0' <= c <= '9'
  }

  predicate AllDigits(s: string)
  {
    forall i :: 0 <= i < |s| ==> IsDigit(s[i])
  }

  function DigitValue(c: char): nat
    requires IsDigit(c)
  {
    (c as int) - ('0' as int)
  }

  function DecimalValue(s: string): nat
    requires AllDigits(s)
  {
    if s == [] then 0 else 10 * DecimalValue(s[..|s| - 1]) + DigitValue(s[|s| - 1])
  }

  /** A run of digits has value 0 exactly when every digit is '0'. */
  lemma {:induction false} ZeroIffAllZeros(s: string)
    requires AllDigits(s)
    ensures DecimalValue(s) == 0 <==> forall i :: 0 <= i < |s| ==> s[i] == '0'
  {
    if s != [] {
      var prefix := s[..|s| - 1];
      ZeroIffAllZeros(prefix);
      assert forall i :: 0 <= i < |prefix| ==> prefix[i] == s[i];
    }
  }

  /** Python's `int(s)` on a header value: defined for a non-empty run of digits. */
  function ParseDecimal(s: string): (r: Option<nat>)
    ensures r.Some? <==> s != [] && AllDigits(s)
    ensures r.Some? ==> (r.value == 0 <==> forall i :: 0 <= i < |s| ==> s[i] == '0')
  {
    if s != [] && AllDigits(s) then
      ZeroIffAllZeros(s);
      Some(DecimalValue(s))
    else None
  }

  /** How a server writes a length: decimal, without leading zeros. */
  function ShowDecimal(n: nat): (s: string)
    ensures s != [] && AllDigits(s)
    ensures s[0] == '0' ==> n == 0
  {
    var digit := ['0' + (n % 10) as char];
    if n < 10 then digit else ShowDecimal(n / 10) + digit
  }

  /** Reading back a length a server wrote gives that length. */
  lemma {:induction false} ParseShowDecimal(n: nat)
    ensures ParseDecimal(ShowDecimal(n)) == Some(n)
  {
    var s := ShowDecimal(n);
    assert DigitValue(s[|s| - 1]) == n % 10;
    if n >= 10 {
      ParseShowDecimal(n / 10);
      assert s[..|s| - 1] == ShowDecimal(n / 10);
    } else {
      assert s[..|s| - 1] == [];
      assert DecimalValue(s) == 10 * DecimalValue([]) + DigitValue(s[0]);
    }
  }

  /** The size `download_chunks` reads: `int(headers.get('content-length', 0))`.
      A missing header gives 0; a present one must be a number, even when empty. */
  function StreamSize(header: Option<string>): (r: Result<nat, Error>)
    ensures header.None? ==> r == Success(0)
    ensures header.Some? && ParseDecimal(header.value).None? ==> r == Failure(InvalidContentLength(header.value))
    ensures forall k: nat, n: nat :: header == Some(Zeros(k) + ShowDecimal(n)) ==> r == Success(n)
  {
    match header
    case None => Success(0)
    case Some(text) =>
      match ParseDecimal(text)
      case None => Failure(InvalidContentLength(text))
      case Some(n) =>
        ShowDecimalInjective(text, n);
        Success(n)
  }

  /** `k` zero digits. */
  function Zeros(k: nat): (s: string)
    ensures |s| == k && AllDigits(s)
  {
    if k == 0 then [] else Zeros(k - 1) + ['0']
  }

  /** Leading zeros do not change the value: `int("007") == 7`. */
  lemma {:induction false} LeadingZeros(k: nat, s: string)
    requires AllDigits(s)
    ensures AllDigits(Zeros(k) + s)
    ensures DecimalValue(Zeros(k) + s) == DecimalValue(s)
  {
    var t := Zeros(k) + s;
    if s == [] {
      assert t == Zeros(k);
      if k > 0 {
        LeadingZeros(k - 1, []);
        assert Zeros(k - 1) + [] == Zeros(k - 1);
        assert t[..|t| - 1] == Zeros(k - 1);
      }
    } else {
      LeadingZeros(k, s[..|s| - 1]);
      assert t[..|t| - 1] == Zeros(k) + s[..|s| - 1];
    }
  }

  /** A header that parses to `n` can only be zeros followed by the way a
      server writes `n`. */
  lemma ShowDecimalInjective(text: string, n: nat)
    requires ParseDecimal(text) == Some(n)
    ensures forall k: nat, m: nat :: text == Zeros(k) + ShowDecimal(m) ==> m == n
  {
    forall k: nat, m: nat | text == Zeros(k) + ShowDecimal(m)
      ensures m == n
    {
      ParseShowDecimal(m);
      LeadingZeros(k, ShowDecimal(m));
    }
  }

  /** A zero digit in front of `k` zeros makes `k + 1` zeros. */
  lemma {:induction false} ZerosCons(k: nat)
    ensures Zeros(k + 1) == ['0'] + Zeros(k)
  {
    if k > 0 {
      ZerosCons(k - 1);
    }
  }

  /** A run of digits that does not start with '0' has a positive value. */
  lemma {:induction false} LeadingNonZero(s: string)
    requires s != [] && AllDigits(s) && s[0] != '0'
    ensures DecimalValue(s) > 0
  {
    if |s| > 1 {
      LeadingNonZero(s[..|s| - 1]);
    }
  }

  /** A run of digits without a leading zero (or the single digit "0") is
      exactly how a server writes its value. */
  lemma {:induction false} CanonicalIsShow(s: string)
    requires s != [] && AllDigits(s)
    requires |s| > 1 ==> s[0] != '0'
    ensures ShowDecimal(DecimalValue(s)) == s
  {
    var n := DecimalValue(s);
    var last := s[|s| - 1];
    if |s| == 1 {
      assert s[..0] == [];
      assert n == DigitValue(last);
      assert s == [last];
    } else {
      var prefix := s[..|s| - 1];
      LeadingNonZero(prefix);
      CanonicalIsShow(prefix);
      assert n / 10 == DecimalValue(prefix) && n % 10 == DigitValue(last);
      assert s == prefix + [last];
    }
  }

  /** One more leading zero adds one to the zeros and keeps the value. */
  lemma PrependZero(rest: string, k: nat)
    requires AllDigits(rest) && rest == Zeros(k) + ShowDecimal(DecimalValue(rest))
    ensures AllDigits(['0'] + rest)
    ensures ['0'] + rest == Zeros(k + 1) + ShowDecimal(DecimalValue(['0'] + rest))
  {
    assert ['0'] + rest == Zeros(1) + rest;
    LeadingZeros(1, rest);
    ZerosCons(k);
  }

  /** Every header `int()` accepts is some zeros followed by the way a server
      writes its value, so the last clause of `StreamSize` covers every
      header that parses. */
  lemma {:induction false} DigitsAreZerosThenDecimal(s: string)
    requires ParseDecimal(s).Some?
    ensures exists k: nat :: s == Zeros(k) + ShowDecimal(DecimalValue(s))
  {
    if |s| == 1 || s[0] != '0' {
      CanonicalIsShow(s);
      assert s == Zeros(0) + ShowDecimal(DecimalValue(s));
    } else {
      var rest := s[1..];
      assert s == ['0'] + rest;
      assert AllDigits(rest) by {
        forall i | 0 <= i < |rest| ensures IsDigit(rest[i]) {
          assert rest[i] == s[i + 1];
        }
      }
      DigitsAreZerosThenDecimal(rest);
      var k: nat :| rest == Zeros(k) + ShowDecimal(DecimalValue(rest));
      PrependZero(rest, k);
    }
  }

  /** `progress`: the percentage of the expected size handed out so far, and 0
      while the expected size is 0 or unknown. */
  function ProgressOf(downloaded: nat, total: nat): (percent: real)
    ensures total == 0 ==> percent == 0.0
    ensures 0.0 <= percent
    ensures downloaded <= total ==> percent <= 100.0
  {
    if total == 0 then 0.0 else (downloaded as real / total as real) * 100.0
  }

  /** The progress scales the downloaded count: progress * total == downloaded * 100. */
  lemma ProgressScales(downloaded: nat, total: nat)
    ensures total == 0 ==> ProgressOf(downloaded, total) == 0.0
    ensures total > 0 ==> ProgressOf(downloaded, total) * total as real == downloaded as real * 100.0
  {
  }

  /** The progress is exactly 100 when, and only when, everything announced has arrived. */
  lemma ProgressFull(downloaded: nat, total: nat)
    requires total > 0
    ensures ProgressOf(downloaded, total) == 100.0 <==> downloaded == total
  {
    ProgressScales(downloaded, total);
  }

  /** Within the announced size the progress is a percentage; the code does not clamp it. */
  lemma ProgressBounds(downloaded: nat, total: nat)
    ensures 0.0 <= ProgressOf(downloaded, total)
    ensures downloaded <= total ==> ProgressOf(downloaded, total) <= 100.0
    ensures total > 0 && downloaded > total ==> ProgressOf(downloaded, total) > 100.0
  {
    ProgressScales(downloaded, total);
  }

  /** More bytes never mean less progress. */
  lemma ProgressMonotone(d1: nat, d2: nat, total: nat)
    requires d1 <= d2
    ensures ProgressOf(d1, total) <= ProgressOf(d2, total)
  {
    if total > 0 {
      var t := total as real;
      assert d1 as real / t <= d2 as real / t;
    }
  }

  /** The three fields of a downloader. */
  datatype FetcherState = FetcherState(total: nat, downloaded: nat, inFlight: bool)

  class AsyncFileDownloader {
    const url: string
    const downloadPath: Path
    var totalSize: nat
    var downloadedSize: nat
    var isDownloading: bool

    constructor (url: string, downloadPath: Path)
      ensures this.url == url && this.downloadPath == downloadPath
      ensures State() == FetcherState(0, 0, false)
    {
      this.url := url;
      this.downloadPath := downloadPath;
      totalSize, downloadedSize, isDownloading := 0, 0, false;
    }

    function State(): FetcherState
      reads this
    {
      FetcherState(totalSize, downloadedSize, isDownloading)
    }

    function Progress(): real
      reads this
    {
      ProgressOf(downloadedSize, totalSize)
    }

    /** `get_content_length`: the declared size of the response to a probe, 0
        when the header is missing or empty; it reads and changes no field. */
    static function GetContentLength(probe: Response): (r: Result<nat, Error>)
      ensures !Ok(probe.status) ==> r == Failure(HttpStatus(probe.status))
      ensures Ok(probe.status) && (probe.contentLength == None || probe.contentLength == Some("")) ==> r == Success(0)
      ensures Ok(probe.status) && probe.contentLength.Some? && probe.contentLength.value != ""
              ==> r == StreamSize(probe.contentLength)
      ensures forall k: nat, n: nat :: Ok(probe.status) && probe.contentLength == Some(Zeros(k) + ShowDecimal(n))
                                      ==> r == Success(n)
    {
      if !Ok(probe.status) then Failure(HttpStatus(probe.status))
      else if probe.contentLength == None || probe.contentLength == Some("") then Success(0)
      else StreamSize(probe.contentLength)
    }

    /** Entering `download_chunks`: the guard, then the flag and a fresh counter. */
    method Begin() returns (r: Outcome<Error>)
      modifies this
      ensures old(isDownloading) ==> r == Fail(AlreadyInProgress) && State() == old(State())
      ensures !old(isDownloading) ==> r == Pass && State() == FetcherState(old(totalSize), 0, true)
    {
      if isDownloading {
        return Fail(AlreadyInProgress);
      }
      isDownloading := true;
      downloadedSize := 0;
      r := Pass;
    }

    /** The streaming response arrives: its status is checked and its
        Content-Length becomes the total; a failure runs the `finally`. */
    method Respond(response: Response) returns (r: Outcome<Error>)
      requires isDownloading
      modifies this
      ensures !Ok(response.status) ==> r == Fail(HttpStatus(response.status))
      ensures Ok(response.status) ==> r == match StreamSize(response.contentLength)
                                           case Success(_) => Pass
                                           case Failure(e) => Fail(e)
      ensures r.Fail? ==> State() == old(State()).(inFlight := false)
      ensures r.Pass? ==> State() == old(State()).(total := StreamSize(response.contentLength).value)
    {
      if !Ok(response.status) {
        isDownloading := false;
        return Fail(HttpStatus(response.status));
      }
      var size := StreamSize(response.contentLength);
      if size.Failure? {
        isDownloading := false;
        return Fail(size.error);
      }
      totalSize := size.value;
      r := Pass;
    }

    /** One chunk of the body: counted, then handed to the consumer as it is. */
    method NextChunk(chunk: seq<byte>) returns (yielded: seq<byte>)
      requires isDownloading
      modifies this
      ensures yielded == chunk
      ensures State() == old(State()).(downloaded := old(downloadedSize) + |chunk|)
    {
      downloadedSize := downloadedSize + |chunk|;
      yielded := chunk;
    }

    /** The body ends, either exhausted or with the connection lost; the
        `finally` clears the flag either way and the counters stay. */
    method End(broken: bool) returns (r: Outcome<Error>)
      requires isDownloading
      modifies this
      ensures r == if broken then Fail(ConnectionLost) else Pass
      ensures State() == old(State()).(inFlight := false)
    {
      isDownloading := false;
      r := if broken then Fail(ConnectionLost) else Pass;
    }
  }
}
