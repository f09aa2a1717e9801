/**
 * The fetch service: `download` logs and sends one GET request, `json` decodes a 200 body,
 * `file` downloads to a path unless that path already exists, and `checkStatus` turns any
 * status other than 200 into a `StatusCodeException`.
 *
 * The network is a parameter: the response the server gives to the one request made. A
 * future's failure is the throwable its `thenApply` stage stores, which `Futures.Encoded`
 * describes.
 */
module Download {
  import opened Common
  import opened Paths
  import opened Exceptions
  import opened Host
  import Futures

  const StatusMessagePrefix: string := "Status code: "

  /** What the server answers: a status code and, for status 200, the body. */
  datatype Response = Response(status: int, body: Bytes)

  /** `new StatusCodeException(code)`. */
  function StatusCodeException(code: int): (t: Throwable)
    ensures t.kind == StatusCodeError(code) && IsRuntime(t.kind) && t.cause.None?
    ensures Message(t) == Some(StatusMessagePrefix + Decimal(code))
  {
    Raise(StatusCodeError(code), StatusMessagePrefix + Decimal(code))
  }

  /** `statusCode()` of a StatusCodeException. */
  function StatusCodeOf(t: Throwable): Option<int> {
    if t.kind.StatusCodeError? then Some(t.kind.statusCode) else None
  }

  /** The code read back from a StatusCodeException's message. */
  function CodeInMessage(message: string): int {
    if |message| >= |StatusMessagePrefix| then ParseDecimal(message[|StatusMessagePrefix|..]) else 0
  }

  /** The exception carries exactly the response code, both as `statusCode()` and in its message. */
  lemma StatusCodeExceptionCarriesCode(code: int)
    ensures StatusCodeOf(StatusCodeException(code)) == Some(code)
    ensures CodeInMessage(Message(StatusCodeException(code)).value) == code
  {
    var m := StatusMessagePrefix + Decimal(code);
    assert m[|StatusMessagePrefix|..] == Decimal(code);
    DecimalRoundTrip(code);
  }

  /** `checkStatus`: status 200 selects the body subscriber (no error); any other status throws. */
  function CheckStatus(status: int): (r: Option<Throwable>)
    ensures r.None? <==> status == 200
    ensures r.Some? ==> StatusCodeOf(r.value) == Some(status) && r.value == StatusCodeException(status)
  {
    if status == 200 then None else Some(StatusCodeException(status))
  }

  /** What `download` adds to the trace for one request: the line printed, then the request sent. */
  function Fetch(url: string): seq<Event> {
    [Stdout(":downloading " + url), HttpGet(url)]
  }

  /** `download(url, handler)`: the line is printed before the request is sent. */
  method Download(h: Host, url: string)
    modifies h
    ensures h.events == old(h.events) + Fetch(url)
    ensures h.files == old(h.files)
  {
    h.Print(":downloading " + url);
    h.Record(HttpGet(url));
  }

  /** `file(path, url)`: an existing path is the cached download; otherwise the body is written to it. */
  method File(h: Host, path: Path, url: string, response: Response) returns (r: Outcome<Path>)
    modifies h
    ensures path in old(h.files) ==> r == Ok(path) && h.files == old(h.files) && h.events == old(h.events)
    ensures path !in old(h.files) ==>
      && h.events == old(h.events) + Fetch(url)
      && (response.status == 200 ==> r == Ok(path) && h.files == old(h.files)[path := response.body])
      && (response.status != 200 ==>
            r == Err(Futures.Encoded(StatusCodeException(response.status))) && h.files == old(h.files))
  {
    if h.Exists(path) {
      return Ok(path);
    }
    Download(h, url);
    var error := CheckStatus(response.status);
    match error
    case None =>
      h.Write(path, response.body);
      r := Ok(path);
    case Some(e) =>
      r := Err(Futures.Encoded(e));
  }

  /**
   * What `json` throws when the JSON adapter throws `t`: an IOException (malformed JSON) is
   * caught and rethrown in a plain RuntimeException; anything else the adapter throws (Moshi's
   * JsonDataException on a type mismatch, a RuntimeException) is not caught and escapes as it is.
   */
  function DecodeFailure(t: Throwable): (r: Throwable)
    ensures IsIOException(t.kind) ==> r.kind == RuntimeError && r.cause == Some(t)
    ensures !IsIOException(t.kind) ==> r == t
  {
    if IsIOException(t.kind) then WrapIn(RuntimeError, t) else t
  }

  /**
   * `json(url, type)`: the body is decoded only after the status check passed. `decode` is the
   * JSON adapter applied to the UTF-8 body: a value, or the throwable its `fromJson` throws.
   */
  method Json<T>(h: Host, url: string, response: Response, decode: Bytes -> Result<T, Throwable>)
    returns (r: Outcome<T>)
    modifies h
    ensures h.events == old(h.events) + Fetch(url)
    ensures h.files == old(h.files)
    ensures response.status != 200 ==> r == Err(Futures.Encoded(StatusCodeException(response.status)))
    ensures response.status == 200 ==> match decode(response.body) {
      case Success(v) => r == Ok(v)
      case Failure(t) => r == Err(Futures.Encoded(DecodeFailure(t)))
    }
  {
    Download(h, url);
    var error := CheckStatus(response.status);
    if error.Some? {
      return Err(Futures.Encoded(error.value));
    }
    match decode(response.body)
    case Success(v) => r := Ok(v);
    case Failure(t) => r := Err(Futures.Encoded(DecodeFailure(t)));
  }

  /** The predicate a caller uses to fall back on "not found". */
  predicate IsNotFound(t: Throwable) {
    StatusCodeOf(t) == Some(404)
  }

  /** The "not found" predicate never accepts a wrapper, so a chained fallback on it sees through every wrapping. */
  lemma NotFoundRejectsWrappers()
    ensures Futures.RejectsWrappers(IsNotFound)
  {
  }

  /** A 404 from `file` or `json` is found in the failure's cause chain, through the wrapper. */
  lemma NotFoundIsVisible()
    ensures Futures.AnyMatch(IsNotFound, Futures.Encoded(StatusCodeException(404)))
  {
  }

  /** No element of the cause chain carries a status code. */
  predicate NoStatusInChain(t: Throwable) {
    forall i :: 0 <= i < |Futures.CauseChain(t)| ==> StatusCodeOf(Futures.CauseChain(t)[i]).None?
  }

  /**
   * A decode failure never looks like a status failure: when the adapter's exception carries no
   * status code anywhere in its causes, neither does the failure `json` completes with.
   */
  lemma DecodeFailureIsNotStatus(t: Throwable)
    requires NoStatusInChain(t)
    ensures NoStatusInChain(Futures.Encoded(DecodeFailure(t)))
  {
    var d := DecodeFailure(t);
    if IsIOException(t.kind) {
      assert Futures.CauseChain(d) == [d] + Futures.CauseChain(t);
    }
    if d.kind != CompletionError {
      assert Futures.CauseChain(Futures.Encoded(d)) == [Futures.Encoded(d)] + Futures.CauseChain(d);
    }
  }

  /**
   * Malformed JSON surfaces two wrappers deep, under a plain RuntimeException, while an adapter's
   * RuntimeException such as JsonDataException sits directly under the CompletionException.
   */
  lemma DecodeFailureDepth(message: string)
    ensures var io := Raise(IOError, message);
      Futures.CauseChain(Futures.Encoded(DecodeFailure(io)))[1].kind == RuntimeError
      && Futures.CauseChain(Futures.Encoded(DecodeFailure(io)))[2] == io
    ensures var data := Raise(OtherError("com.squareup.moshi.JsonDataException", true), message);
      Futures.CauseChain(Futures.Encoded(DecodeFailure(data))) == [Futures.Encoded(data), data]
  {
    var io := Raise(IOError, message);
    var d := DecodeFailure(io);
    assert Futures.CauseChain(d) == [d, io];
    assert Futures.CauseChain(Futures.Encoded(d)) == [Futures.Encoded(d), d, io];
    var data := Raise(OtherError("com.squareup.moshi.JsonDataException", true), message);
    assert Futures.CauseChain(Futures.Encoded(data)) == [Futures.Encoded(data), data];
  }

  /** The events of one download hold exactly one request, for its URL. */
  lemma DownloadRequests(before: seq<Event>, url: string)
    ensures Requests(before + Fetch(url)) == Requests(before) + [url]
  {
    var two := Fetch(url);
    RequestsAppend(before, two);
    assert two[..1] == [Stdout(":downloading " + url)];
    assert two[..1][..0] == [];
  }

  /**
   * Fetching the same path twice: after a successful first call the second makes no request,
   * so the pair requests the URL once when the path was missing and never when it existed;
   * after a failed first call the second requests again.
   */
  method FileTwice(h: Host, path: Path, url: string, first: Response, second: Response)
    returns (r1: Outcome<Path>, r2: Outcome<Path>)
    modifies h
    ensures r1.Ok? ==> r2 == Ok(path)
    ensures r1.Ok? ==> Requests(h.events) == Requests(old(h.events)) + (if path in old(h.files) then [] else [url])
    ensures r1.Err? ==> Requests(h.events) == Requests(old(h.events)) + [url, url]
  {
    ghost var before := h.events;
    r1 := File(h, path, url, first);
    ghost var middle := h.events;
    r2 := File(h, path, url, second);
    if path !in old(h.files) {
      DownloadRequests(before, url);
    }
    if r1.Err? {
      DownloadRequests(middle, url);
    }
  }
}
