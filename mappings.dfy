/**
 * Extraction of the mappings file from a mappings jar: the output is named after the jar,
 * an existing output is reused, and a Tiny v1 file is rewritten by the external name-proposal
 * tool (Stitch) through a temporary copy.
 */
module Mappings {
  import opened Common
  import opened Paths
  import opened Exceptions
  import opened Host

  /** `"v"`, the first character of a Tiny v1 file (its header is `v1`; Tiny v2 starts with `tiny`). */
  const LowercaseV: Byte := 118

  /**
   * The detail message of the StringIndexOutOfBoundsException that `substring(begin, end)`
   * throws for a bad range (Java 21, where the bounds check goes through `Preconditions`).
   */
  function SubstringRangeMessage(begin: int, end: int, length: int): string {
    "Range [" + Decimal(begin) + ", " + Decimal(end) + ") out of bounds for length " + Decimal(length)
  }

  /**
   * The name of the extracted file: the jar's name with its last four characters (".jar" is
   * assumed, not checked) replaced by ".tiny". `substring` fails on a name shorter than four.
   */
  function OutputFileName(jarName: string): (r: Result<string, Throwable>)
    ensures r.Failure? <==> |jarName| < 4
    ensures r.Failure? ==>
      r.error == Raise(StringIndexOutOfBoundsError, SubstringRangeMessage(0, |jarName| - 4, |jarName|))
    ensures r.Success? ==>
      && |r.value| == |jarName| + 1
      && r.value[..|jarName| - 4] == jarName[..|jarName| - 4]
      && r.value[|jarName| - 4..] == ".tiny"
  {
    var n := |jarName|;
    if n < 4 then
      Failure(Raise(StringIndexOutOfBoundsError, "Range [0, " + Decimal(n - 4) + ") out of bounds for length " + Decimal(n)))
    else
      Success(jarName[..n - 4] + ".tiny")
  }

  /** The name derived from a file name is again a file name. */
  lemma OutputFileNameIsName(jarName: Name)
    requires |jarName| >= 4
    ensures OutputFileName(jarName).value != [] && '/' !in OutputFileName(jarName).value
  {
    var r := OutputFileName(jarName).value;
    forall i | 0 <= i < |r| ensures r[i] != '/' {
      if i < |jarName| - 4 {
        assert r[i] == jarName[i] && jarName[i] in jarName;
      } else {
        assert r[i] == ".tiny"[i - (|jarName| - 4)];
      }
    }
  }

  /** A jar named `<stem>.jar` gives `<stem>.tiny`. */
  lemma JarNameGivesTinyName(stem: string)
    ensures OutputFileName(stem + ".jar") == Success(stem + ".tiny")
  {
    assert (stem + ".jar")[..|stem|] == stem;
  }

  /** The extension is not checked: any four trailing characters are dropped. */
  lemma ExtensionNotChecked()
    ensures OutputFileName("yarn.zip") == Success("yarn.tiny")
    ensures OutputFileName("abc") ==
      Failure(Raise(StringIndexOutOfBoundsError, "Range [0, -1) out of bounds for length 3"))
  {
    assert DigitChar(0) == '0' && DigitChar(1) == '1' && DigitChar(3) == '3';
    assert Decimal(0) == "0" && Decimal(-1) == "-1" && Decimal(3) == "3";
    assert "Range [" + "0" + ", " == "Range [0, ";
    assert "Range [0, " + "-1" + ") out of bounds for length " == "Range [0, -1) out of bounds for length ";
    assert "Range [0, -1) out of bounds for length " + "3" == "Range [0, -1) out of bounds for length 3";
    var n := "yarn.zip";
    assert n[..|n| - 4] == "yarn";
    assert "yarn" + ".tiny" == "yarn.tiny";
  }

  /**
   * The detail message the JVM (Java 21, where detailed NullPointerException messages are on by
   * default) gives the exception thrown when `getFileName()` is null.
   */
  const NoFileNameMessage: string :=
    "Cannot invoke \"java.nio.file.Path.toString()\" because the return value of \"java.nio.file.Path.getFileName()\" is null"

  /**
   * `outputPath`: the extracted file's path, a sibling of the mappings jar. A root has no file
   * name (`getFileName()` is null), and the empty path's name "" is too short.
   */
  function OutputPath(mappingsJar: Path): (r: Result<Path, Throwable>)
    ensures FileNameOf(mappingsJar).None? ==> r == Failure(Raise(NullPointerError, NoFileNameMessage))
    ensures mappingsJar == Path(false, []) ==> r.Failure? && r.error.kind == StringIndexOutOfBoundsError
    ensures |mappingsJar.names| > 0 ==>
      && (r.Failure? <==> |FileName(mappingsJar)| < 4)
      && (r.Success? ==>
            && r.value.absolute == mappingsJar.absolute
            && |r.value.names| == |mappingsJar.names|
            && r.value.names[..|r.value.names| - 1] == mappingsJar.names[..|mappingsJar.names| - 1]
            && Success(FileName(r.value)) == OutputFileName(FileName(mappingsJar)))
  {
    match FileNameOf(mappingsJar)
    case None => Failure(Raise(NullPointerError, NoFileNameMessage))
    case Some(f) =>
      match OutputFileName(ToString(f))
      case Failure(e) => Failure(e)
      case Success(name) =>
        if |mappingsJar.names| > 0 then
          assert ToString(f) == FileName(mappingsJar);
          OutputFileNameIsName(FileName(mappingsJar));
          ResolveSiblingName(mappingsJar, name);
          Success(ResolveSibling(mappingsJar, name))
        else
          Success(ResolveSibling(mappingsJar, name))
  }

  /** `isTinyV1`: true exactly when the first character is 'v'; an empty file (`read() == -1`) is not v1. */
  function IsTinyV1(content: Bytes): (r: bool)
    ensures r <==> |content| > 0 && content[0] == LowercaseV
  {
    var first: int := if content == [] then -1 else content[0] as int;
    first == LowercaseV as int
  }

  /** A file starting "v1" (Tiny v1) is detected and one starting "tiny" (Tiny v2) is not. */
  lemma HeadersDetected(rest: Bytes)
    ensures IsTinyV1([118, 49] + rest)
    ensures !IsTinyV1([116, 105, 110, 121] + rest)
  {
  }

  /**
   * What `extractMappings` lets escape from the tool: an IOException or a RuntimeException is
   * rethrown as it is, any other Exception wrapped in a RuntimeException; a java.lang.Error is
   * caught by neither clause and escapes unchanged.
   */
  function Propagated(t: Throwable): (r: Throwable)
    ensures IsRuntime(t.kind) || IsIOException(t.kind) || t.kind.FatalError? ==> r == t
    ensures !(IsRuntime(t.kind) || IsIOException(t.kind) || t.kind.FatalError?) ==>
      r.kind == RuntimeError && r.cause == Some(t)
    ensures IsRuntime(r.kind) || IsIOException(r.kind) || r.kind.FatalError?
  {
    if IsRuntime(t.kind) || IsIOException(t.kind) || t.kind.FatalError? then t else WrapIn(RuntimeError, t)
  }

  /** The tool's arguments: the game jar, the temporary input and the output, as absolute paths. */
  function StitchArgs(gameJar: Path, temp: Path, output: Path, cwd: seq<Name>): (r: seq<string>)
    ensures |r| == 3
  {
    [ToString(ToAbsolute(gameJar, cwd)), ToString(ToAbsolute(temp, cwd)), ToString(ToAbsolute(output, cwd))]
  }

  /**
   * The files while the tool runs: the extracted copy moved to the temporary file. After the run,
   * the tool's output replaces them, and the temporary file is gone.
   */
  lemma StitchFiles(files: map<Path, Bytes>, out: Path, temp: Path, v1: Bytes, content: Bytes)
    requires out !in files && temp !in files && temp != out
    ensures files[out := v1][temp := []][temp := v1] - {out} == files[temp := v1]
    ensures (files[temp := v1][out := content]) - {temp} == files[out := content]
  {
  }

  /** `<jar name without its last four characters>.tiny` beside the jar, for a name long enough. */
  function TinySibling(mappingsJar: Path): Path
    requires |mappingsJar.names| > 0 && |FileName(mappingsJar)| >= 4
  {
    var name := FileName(mappingsJar);
    var tiny := name[..|name| - 4] + ".tiny";
    assert '/' !in tiny by {
      forall i | 0 <= i < |tiny| ensures tiny[i] != '/' {
        if i < |name| - 4 {
          assert tiny[i] == name[i] && name[i] in name;
        }
      }
    }
    Path(mappingsJar.absolute, mappingsJar.names[..|mappingsJar.names| - 1] + [tiny])
  }

  /** `outputPath` succeeds exactly when the jar's name is long enough, and is then that sibling. */
  lemma OutputPathIsTinySibling(mappingsJar: Path)
    ensures OutputPath(mappingsJar).Success? <==> |mappingsJar.names| > 0 && |FileName(mappingsJar)| >= 4
    ensures OutputPath(mappingsJar).Success? ==> OutputPath(mappingsJar).value == TinySibling(mappingsJar)
  {
    if OutputPath(mappingsJar).Success? {
      var out := OutputPath(mappingsJar).value;
      var expected := TinySibling(mappingsJar);
      var name := FileName(mappingsJar);
      assert FileName(out) == name[..|name| - 4] + ".tiny";
      assert out.names == out.names[..|out.names| - 1] + [FileName(out)];
      assert out.names == expected.names;
    }
  }

  /**
   * `extractMappings(gameJar, mappingsJar)`. `entry` is the content of `mappings/mappings.tiny`
   * inside the jar, if the jar has one; `temp` is the fresh file `createTempFile` makes;
   * `stitch` is how the name-proposal tool ends.
   * The returned path (or the exception thrown) is `r`.
   */
  method ExtractMappings(h: Host, gameJar: Path, mappingsJar: Path, entry: Option<Bytes>,
                         temp: Path, cwd: seq<Name>, stitch: ToolRun)
    returns (r: Outcome<Path>)
    requires temp !in h.files
    requires |mappingsJar.names| > 0 && |FileName(mappingsJar)| >= 4 ==> temp != TinySibling(mappingsJar)
    modifies h
    ensures OutputPath(mappingsJar).Failure? ==>
      r == Err(OutputPath(mappingsJar).error) && h.files == old(h.files) && h.events == old(h.events)
    ensures OutputPath(mappingsJar).Success? ==>
      var out := OutputPath(mappingsJar).value;
      if out in old(h.files) then
        r == Ok(out) && h.files == old(h.files) && h.events == old(h.events)
      else if mappingsJar !in old(h.files) || entry.None? then
        r.Err? && r.error.kind == NoSuchFileError && h.files == old(h.files) && h.events == old(h.events)
      else if !IsTinyV1(entry.value) then
        r == Ok(out) && h.files == old(h.files)[out := entry.value] && h.events == old(h.events)
      else
        && h.events == old(h.events) + [StitchRun(StitchArgs(gameJar, temp, out, cwd))]
        && match stitch {
             case Wrote(content) => r == Ok(out) && h.files == old(h.files)[out := content]
             case Failed(t, leftover) =>
               r == Err(Propagated(t)) && h.files == WithLeftover(old(h.files)[temp := entry.value], out, leftover)
           }
  {
    var name := OutputPath(mappingsJar);
    if name.Failure? {
      return Err(name.error);
    }
    var out := name.value;
    OutputPathIsTinySibling(mappingsJar);
    if h.Exists(out) {
      return Ok(out);
    }
    if !h.Exists(mappingsJar) {
      return Err(Raise(NoSuchFileError, ToString(mappingsJar)));
    }
    if entry.None? {
      return Err(Raise(NoSuchFileError, "mappings/mappings.tiny"));
    }
    h.Write(out, entry.value);

    var isV1 := IsTinyV1(entry.value);
    if isV1 {
      h.Write(temp, []);
      h.Write(temp, entry.value);
      StitchFiles(old(h.files), out, temp, entry.value, if stitch.Wrote? then stitch.content else []);
      h.Delete(out);
      h.Record(StitchRun(StitchArgs(gameJar, temp, out, cwd)));
      match stitch
      case Wrote(content) =>
        h.Write(out, content);
        h.Delete(temp);
      case Failed(t, leftover) =>
        if leftover.Some? {
          h.Write(out, leftover.value);
        }
        return Err(Propagated(t));
    }
    r := Ok(out);
  }
}
