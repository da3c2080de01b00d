/**
 * The HTTP client: wallpaper metadata and image bytes, each fetched with a
 * bounded number of attempts. The URL session is an input: the response
 * (or transport error) it gives for each successive request.
 */
module Networking {
  import opened Wrappers
  import opened AppErrors

  type Bytes = seq<bv8>

  /** `NetworkConfig.maxRetryAttempts`. */
  const MaxRetryAttempts: nat := 3

  /** Attempts a retry loop may make: the first one and every retry. */
  const TotalAttempts: nat := MaxRetryAttempts + 1

  const BaseURL := "http://89.169.140.95:8080"

  /** `"\(baseURL)/wallpaper"`. */
  const WallpaperURL := BaseURL + "/wallpaper"

  /** `"\(baseURL)\(urlPath)"`: plain concatenation, no separator added. */
  function ImageURL(urlPath: string): (u: string)
    ensures |u| == |BaseURL| + |urlPath|
    ensures u[..|BaseURL|] == BaseURL && u[|BaseURL|..] == urlPath
  {
    BaseURL + urlPath
  }

  /** The body of `GET /wallpaper`. */
  datatype WallpaperResponse = WallpaperResponse(
    id: string, format: string, status: string, width: int, height: int,
    generatedAt: string, imageURL: string, fileSize: int)

  /** What one `session.data(from:)` call gives: a thrown error, or data with a response. */
  datatype Response =
    | TransportError
    | NonHTTPResponse(body: Bytes)
    | HTTPResponse(statusCode: int, body: Bytes)

  /** How one pass through a retry loop's `do` block ends. */
  datatype Attempt<T> = Succeeded(value: T) | Failed

  /**
   * One pass of `fetchRandomPhoto`: only an HTTP 200 whose body decodes is a
   * success; a decoding error is thrown inside the `do` block and so is a
   * failed attempt like any other.
   */
  function PhotoAttempt(r: Response, decode: Bytes -> Option<WallpaperResponse>): (a: Attempt<WallpaperResponse>)
    ensures a.Succeeded? <==> r.HTTPResponse? && r.statusCode == 200 && decode(r.body).Some?
    ensures a.Succeeded? ==> a.value == decode(r.body).value
  {
    if r.HTTPResponse? && r.statusCode == 200 then
      match decode(r.body)
      case Some(photo) => Succeeded(photo)
      case None => Failed
    else Failed
  }

  /** One pass of `downloadImage`: an HTTP 200 gives its body unchanged. */
  function ImageAttempt(r: Response): (a: Attempt<Bytes>)
    ensures a.Succeeded? <==> r.HTTPResponse? && r.statusCode == 200
    ensures a.Succeeded? ==> a.value == r.body
  {
    if r.HTTPResponse? && r.statusCode == 200 then Succeeded(r.body) else Failed
  }

  function PhotoAttempts(transport: seq<Response>, decode: Bytes -> Option<WallpaperResponse>): (s: seq<Attempt<WallpaperResponse>>)
    ensures |s| == |transport|
    ensures forall i :: 0 <= i < |s| ==> s[i] == PhotoAttempt(transport[i], decode)
  {
    seq(|transport|, i requires 0 <= i < |transport| => PhotoAttempt(transport[i], decode))
  }

  function ImageAttempts(transport: seq<Response>): (s: seq<Attempt<Bytes>>)
    ensures |s| == |transport|
    ensures forall i :: 0 <= i < |s| ==> s[i] == ImageAttempt(transport[i])
  {
    seq(|transport|, i requires 0 <= i < |transport| => ImageAttempt(transport[i]))
  }

  /** What a retry loop returns, and how many requests it made. */
  datatype Retried<T> = Retried(result: Result<T>, requests: nat)

  /**
   * The retry loop as it stands before attempt `i`, every earlier attempt
   * having failed: the value of the first attempt from `i` on that succeeds,
   * or `maxRetryAttemptsReached` once attempt `TotalAttempts - 1` has failed.
   * `requests` counts from the very first attempt. An attempt past the end of
   * `attempts` counts as failed; the fetch methods always have all of them.
   */
  function RetryFrom<T>(attempts: seq<Attempt<T>>, i: nat): (r: Retried<T>)
    requires i <= TotalAttempts
    ensures r.requests <= TotalAttempts
    ensures r.result.Ok? ==> i < r.requests
    ensures r.result.Err? ==> r == Retried(Err(App(MaxRetryAttemptsReached)), TotalAttempts)
    decreases TotalAttempts - i
  {
    if i == TotalAttempts then Retried(Err(App(MaxRetryAttemptsReached)), TotalAttempts)
    else if i < |attempts| && attempts[i].Succeeded? then Retried(Ok(attempts[i].value), i + 1)
    else RetryFrom(attempts, i + 1)
  }

  /**
   * The retry policy: the value of the first successful attempt among the
   * first `TotalAttempts`, after as many requests as it took; if all of them
   * fail, `maxRetryAttemptsReached` after `TotalAttempts` requests.
   */
  function RetryPolicy<T>(attempts: seq<Attempt<T>>): (r: Retried<T>)
    ensures 1 <= r.requests <= TotalAttempts
    ensures r.result.Err? ==> r.result.failure == App(MaxRetryAttemptsReached)
    ensures r.result.Err? ==> r.requests == TotalAttempts
  {
    RetryFrom(attempts, 0)
  }

  /**
   * What the loop from attempt `i` promises: it succeeds iff some attempt from
   * `i` to `TotalAttempts - 1` succeeds, and then with the value of the first
   * of them, every attempt between `i` and that one having failed.
   */
  lemma {:induction false} RetryFromMeaning<T>(attempts: seq<Attempt<T>>, i: nat)
    requires i <= TotalAttempts <= |attempts|
    ensures RetryFrom(attempts, i).result.Ok? <==> exists k :: i <= k < TotalAttempts && attempts[k].Succeeded?
    ensures RetryFrom(attempts, i).result.Ok? ==>
      attempts[RetryFrom(attempts, i).requests - 1] == Succeeded(RetryFrom(attempts, i).result.value)
    ensures forall j :: i <= j < RetryFrom(attempts, i).requests - 1 ==> attempts[j].Failed?
    decreases TotalAttempts - i
  {
    if i < TotalAttempts && attempts[i].Failed? {
      RetryFromMeaning(attempts, i + 1);
    }
  }

  /**
   * The retry policy's promise: success iff one of the first `TotalAttempts`
   * attempts succeeds, with the value of the first success, reached after
   * only failures.
   */
  lemma RetryPolicyMeaning<T>(attempts: seq<Attempt<T>>)
    requires |attempts| >= TotalAttempts
    ensures RetryPolicy(attempts).result.Ok? <==> exists k :: 0 <= k < TotalAttempts && attempts[k].Succeeded?
    ensures RetryPolicy(attempts).result.Ok? ==>
      attempts[RetryPolicy(attempts).requests - 1] == Succeeded(RetryPolicy(attempts).result.value)
    ensures forall j :: 0 <= j < RetryPolicy(attempts).requests - 1 ==> attempts[j].Failed?
  {
    RetryFromMeaning(attempts, 0);
  }

  /**
   * `fetchRandomPhoto()`. `transport` holds what the session gives for each
   * request the loop may make; `decode` is the JSON decoder. Returns the
   * decoded response or the error, and the URLs requested, in order.
   */
  method FetchRandomPhoto(transport: seq<Response>, decode: Bytes -> Option<WallpaperResponse>)
    returns (r: Result<WallpaperResponse>, requested: seq<string>)
    requires |transport| >= TotalAttempts
    ensures r == RetryPolicy(PhotoAttempts(transport, decode)).result
    ensures |requested| == RetryPolicy(PhotoAttempts(transport, decode)).requests
    ensures forall u <- requested :: u == WallpaperURL
  {
    ghost var spec := PhotoAttempts(transport, decode);
    r := Err(App(MaxRetryAttemptsReached));
    requested := [];
    var attempts := 0;
    while attempts <= MaxRetryAttempts
      invariant 0 <= attempts <= TotalAttempts
      invariant |requested| == attempts
      invariant forall u <- requested :: u == WallpaperURL
      invariant RetryPolicy(spec) == RetryFrom(spec, attempts)
    {
      var response := transport[attempts];
      requested := requested + [WallpaperURL];
      if response.HTTPResponse? && response.statusCode == 200 {
        var decoded := decode(response.body);
        if decoded.Some? {
          return Ok(decoded.value), requested;
        }
      }
      attempts := attempts + 1;
      if attempts > MaxRetryAttempts {
        return Err(App(MaxRetryAttemptsReached)), requested;
      }
    }
    r := Err(App(MaxRetryAttemptsReached));
  }

  /**
   * `downloadImage(from:)`: the body of the first HTTP 200 response, or
   * `maxRetryAttemptsReached` once every attempt has failed.
   */
  method DownloadImage(urlPath: string, transport: seq<Response>)
    returns (r: Result<Bytes>, requested: seq<string>)
    requires |transport| >= TotalAttempts
    ensures r == RetryPolicy(ImageAttempts(transport)).result
    ensures |requested| == RetryPolicy(ImageAttempts(transport)).requests
    ensures forall u <- requested :: u == ImageURL(urlPath)
  {
    ghost var spec := ImageAttempts(transport);
    var fullURL := ImageURL(urlPath);
    r := Err(App(MaxRetryAttemptsReached));
    requested := [];
    var attempts := 0;
    while attempts <= MaxRetryAttempts
      invariant 0 <= attempts <= TotalAttempts
      invariant |requested| == attempts
      invariant forall u <- requested :: u == fullURL
      invariant RetryPolicy(spec) == RetryFrom(spec, attempts)
    {
      var response := transport[attempts];
      requested := requested + [fullURL];
      if response.HTTPResponse? && response.statusCode == 200 {
        return Ok(response.body), requested;
      }
      attempts := attempts + 1;
      if attempts > MaxRetryAttempts {
        return Err(App(MaxRetryAttemptsReached)), requested;
      }
    }
    r := Err(App(MaxRetryAttemptsReached));
  }

  /** When the first `TotalAttempts` attempts all fail, the policy gives up after all of them. */
  lemma AllFailed<T>(attempts: seq<Attempt<T>>)
    requires |attempts| >= TotalAttempts
    requires forall j :: 0 <= j < TotalAttempts ==> attempts[j].Failed?
    ensures RetryPolicy(attempts) == Retried(Err(App(MaxRetryAttemptsReached)), TotalAttempts)
  {
    RetryPolicyMeaning(attempts);
  }

  /** k failures then a success, k ≤ maxRetryAttempts: that success after k + 1 requests. */
  lemma SucceedsAfterFailures<T>(attempts: seq<Attempt<T>>, k: nat)
    requires |attempts| >= TotalAttempts && k <= MaxRetryAttempts
    requires forall j :: 0 <= j < k ==> attempts[j].Failed?
    requires attempts[k].Succeeded?
    ensures RetryPolicy(attempts) == Retried(Ok(attempts[k].value), k + 1)
  {
    RetryPolicyMeaning(attempts);
  }

  /** A non-HTTP response or a non-200 status is a failed, retried attempt, never a final error. */
  lemma BadStatusIsRetried(transport: seq<Response>, decode: Bytes -> Option<WallpaperResponse>, i: nat)
    requires i < |transport|
    requires transport[i].NonHTTPResponse? || (transport[i].HTTPResponse? && transport[i].statusCode != 200)
    ensures PhotoAttempts(transport, decode)[i].Failed?
    ensures ImageAttempts(transport)[i].Failed?
  {
  }

  /** A body that does not decode is retried in `fetchRandomPhoto`, whatever the status. */
  lemma DecodeFailureIsRetried(transport: seq<Response>, decode: Bytes -> Option<WallpaperResponse>, i: nat)
    requires i < |transport| && transport[i].HTTPResponse? && decode(transport[i].body).None?
    ensures PhotoAttempts(transport, decode)[i].Failed?
  {
  }

  /**
   * `performRequest(endpoint:)`: a single attempt. A missing URL, a transport
   * error and a non-HTTP response are `networkUnavailable`; the
   * `imageDownloadFailed` thrown for a status outside 200...299 is caught by
   * the generic `catch` and also becomes `networkUnavailable`; only a
   * decoding error becomes `invalidImageData`.
   */
  function PerformRequest<T>(url: Option<string>, response: Response, decode: Bytes -> Option<T>): (r: Result<T>)
    ensures r.Err? ==> r.failure == App(NetworkUnavailable) || r.failure == App(InvalidImageData)
    ensures r.Err? ==> r.failure != App(ImageDownloadFailed)
    ensures r.Ok? <==> url.Some? && response.HTTPResponse? && 200 <= response.statusCode <= 299
                       && decode(response.body).Some?
    ensures r.Ok? ==> r.value == decode(response.body).value
    ensures r == Err(App(InvalidImageData)) <==>
              url.Some? && response.HTTPResponse? && 200 <= response.statusCode <= 299
              && decode(response.body).None?
  {
    if url.None? then Err(App(NetworkUnavailable))
    else match response
      case TransportError => Err(App(NetworkUnavailable))
      case NonHTTPResponse(_) => Err(App(NetworkUnavailable))
      case HTTPResponse(status, body) =>
        if !(200 <= status <= 299) then Err(App(NetworkUnavailable))
        else match decode(body)
          case Some(v) => Ok(v)
          case None => Err(App(InvalidImageData))
  }

  /** A 404 from the server reaches the caller as `networkUnavailable`, not `imageDownloadFailed`. */
  lemma StatusErrorIsMasked(decode: Bytes -> Option<int>)
    ensures PerformRequest(Some(WallpaperURL), HTTPResponse(404, []), decode) == Err(App(NetworkUnavailable))
  {
  }

  /**
   * `performRequest(endpoint:)` with the `AppError` it throws for a bad
   * status passed on, as its `throw` evidently intends: the generic `catch`
   * only wraps errors that are not already `AppError`s.
   */
  function PerformRequestIntended<T>(url: Option<string>, response: Response, decode: Bytes -> Option<T>): (r: Result<T>)
    ensures r == Err(App(ImageDownloadFailed)) <==>
              url.Some? && response.HTTPResponse? && !(200 <= response.statusCode <= 299)
    ensures r == Err(App(NetworkUnavailable)) <==> url.None? || !response.HTTPResponse?
    ensures r.Ok? <==> url.Some? && response.HTTPResponse? && 200 <= response.statusCode <= 299
                       && decode(response.body).Some?
    ensures r.Ok? ==> r.value == decode(response.body).value
  {
    if url.None? then Err(App(NetworkUnavailable))
    else match response
      case TransportError => Err(App(NetworkUnavailable))
      case NonHTTPResponse(_) => Err(App(NetworkUnavailable))
      case HTTPResponse(status, body) =>
        if !(200 <= status <= 299) then Err(App(ImageDownloadFailed))
        else match decode(body)
          case Some(v) => Ok(v)
          case None => Err(App(InvalidImageData))
  }

  /** The two versions differ exactly on a bad status, and agree everywhere else. */
  lemma MaskingIsTheOnlyDifference<T>(url: Option<string>, response: Response, decode: Bytes -> Option<T>)
    ensures PerformRequest(url, response, decode) != PerformRequestIntended(url, response, decode) <==>
              url.Some? && response.HTTPResponse? && !(200 <= response.statusCode <= 299)
  {
  }
}
