/**
 * Java's throwables as values: a class, an optional message and an optional cause,
 * plus the completion of a future (a value or a throwable).
 */
module Exceptions {
  import opened Common

  /** The throwable classes the pipeline raises, wraps or inspects. */
  datatype Kind =
    | StatusCodeError(statusCode: int)       // Download.StatusCodeException, a RuntimeException
    | RuntimeError                           // java.lang.RuntimeException
    | CompletionError                        // java.util.concurrent.CompletionException
    | UncheckedIOError                       // java.io.UncheckedIOException
    | NullPointerError                       // java.lang.NullPointerException
    | IndexOutOfBoundsError                  // java.lang.IndexOutOfBoundsException
    | StringIndexOutOfBoundsError            // java.lang.StringIndexOutOfBoundsException
    | NoSuchElementError                     // java.util.NoSuchElementException
    | IOError                                // java.io.IOException
    | NoSuchFileError                        // java.nio.file.NoSuchFileException, an IOException
    | FatalError(className: string)          // a java.lang.Error: neither an Exception nor caught by `catch (Exception e)`
    | OtherError(className: string, unchecked: bool)   // any other Exception; `unchecked` for a RuntimeException

  /**
   * What a throwable was constructed with as its detail message: none, a given string, or
   * (the `(Throwable cause)` constructor) the cause's `toString()`, rendered by `Message`.
   */
  datatype Detail = NoMessage | Text(text: string) | CauseDescription

  datatype Throwable = Throwable(kind: Kind, detail: Detail, cause: Option<Throwable>)

  /** The completion of a future: normally with a value, or exceptionally with a throwable. */
  datatype Outcome<+T> = Ok(value: T) | Err(error: Throwable)

  /** `t instanceof RuntimeException`. */
  predicate IsRuntime(k: Kind) {
    match k
    case IOError => false
    case NoSuchFileError => false
    case FatalError(_) => false
    case OtherError(_, unchecked) => unchecked
    case _ => true
  }

  /** `t instanceof IOException`. */
  predicate IsIOException(k: Kind) {
    k == IOError || k == NoSuchFileError
  }

  function ClassName(k: Kind): string {
    match k
    case StatusCodeError(_) => "juuxel.mccmp.Download$StatusCodeException"
    case RuntimeError => "java.lang.RuntimeException"
    case CompletionError => "java.util.concurrent.CompletionException"
    case UncheckedIOError => "java.io.UncheckedIOException"
    case NullPointerError => "java.lang.NullPointerException"
    case IndexOutOfBoundsError => "java.lang.IndexOutOfBoundsException"
    case StringIndexOutOfBoundsError => "java.lang.StringIndexOutOfBoundsException"
    case NoSuchElementError => "java.util.NoSuchElementException"
    case IOError => "java.io.IOException"
    case NoSuchFileError => "java.nio.file.NoSuchFileException"
    case FatalError(name) => name
    case OtherError(name, _) => name
  }

  /** `t.getMessage()`: the given string, or the cause's `toString()` (null without a cause). */
  function Message(t: Throwable): Option<string>
    decreases t, 0
  {
    match t.detail
    case NoMessage => None
    case Text(m) => Some(m)
    case CauseDescription =>
      match t.cause
      case None => None
      case Some(c) => Some(Describe(c))
  }

  /** `t.toString()`: the class name, then ": " and the message when there is one. */
  function Describe(t: Throwable): string
    decreases t, 1
  {
    ClassName(t.kind) + match Message(t) { case None => "" case Some(m) => ": " + m }
  }

  /** A wrapper built with the `(Throwable cause)` constructor: its message is the cause's `toString()`. */
  function WrapIn(k: Kind, cause: Throwable): (r: Throwable)
    ensures r.kind == k && r.cause == Some(cause)
    ensures Message(r) == Some(Describe(cause))
  {
    Throwable(k, CauseDescription, Some(cause))
  }

  /** A throwable without a cause. */
  function Raise(k: Kind, message: string): (r: Throwable)
    ensures r.kind == k && r.cause.None? && Message(r) == Some(message)
  {
    Throwable(k, Text(message), None)
  }

  function DigitChar(d: nat): char
    requires d < 10
  {
    "0123456789"[d]
  }

  function DigitValue(c: char): int {
    c as int - '0' as int
  }

  /** Decimal digits of a natural number, most significant first. */
  function Digits(n: nat): (r: string)
    ensures |r| > 0 && r[0] != '-'
  {
    if n < 10 then [DigitChar(n)] else Digits(n / 10) + [DigitChar(n % 10)]
  }

  /** `Integer.toString(n)`: a leading '-' for negative numbers. */
  function Decimal(n: int): string {
    if n < 0 then "-" + Digits(-n) else Digits(n)
  }

  function ParseDigits(s: string): int {
    if s == [] then 0 else ParseDigits(s[..|s| - 1]) * 10 + DigitValue(s[|s| - 1])
  }

  function ParseDecimal(s: string): int {
    if |s| > 0 && s[0] == '-' then -ParseDigits(s[1..]) else ParseDigits(s)
  }

  lemma {:induction false} DigitsRoundTrip(n: nat)
    ensures ParseDigits(Digits(n)) == n
  {
    if n >= 10 {
      DigitsRoundTrip(n / 10);
      var s := Digits(n / 10) + [DigitChar(n % 10)];
      assert s[..|s| - 1] == Digits(n / 10);
    }
  }

  /** A leading '-' negates the digits after it. */
  lemma ParseNegative(d: string)
    ensures ParseDecimal("-" + d) == -ParseDigits(d)
  {
    var s := "-" + d;
    assert s[1..] == d;
  }

  /** The decimal rendering of an integer can be read back, so it loses nothing. */
  lemma DecimalRoundTrip(n: int)
    ensures ParseDecimal(Decimal(n)) == n
  {
    var d := Digits(if n < 0 then -n else n);
    DigitsRoundTrip(if n < 0 then -n else n);
    if n < 0 {
      assert Decimal(n) == "-" + d;
      ParseNegative(d);
    } else {
      assert Decimal(n) == d && d[0] != '-';
    }
  }
}
