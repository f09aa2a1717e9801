/**
 * The machine the tool runs on, as far as the pipeline observes it: the regular files that
 * exist, and one trace of what the process does to the outside world, in order (lines printed
 * to standard output, HTTP requests sent, external tools run).
 */
module Host {
  import opened Common
  import opened Paths
  import opened Exceptions

  datatype Event =
    | Stdout(line: string)
    | HttpGet(url: string)
    | RemapperRun(input: Path, mappings: Path, classpath: seq<Path>, output: Path)
    | StitchRun(args: seq<string>)
    | DecompilerRun(args: seq<string>)
    | DiffRun(a: Path, b: Path, output: Path)

  /**
   * How an external tool that writes one file ends: the file it wrote, or the exception it threw
   * together with what it had left at its output path by then, if anything.
   */
  datatype ToolRun = Wrote(content: Bytes) | Failed(exception: Throwable, leftover: Option<Bytes>)

  /** The files after a failed tool run: its leftover, if any, at its output path; nothing else changes. */
  function WithLeftover(files: map<Path, Bytes>, output: Path, leftover: Option<Bytes>): (r: map<Path, Bytes>)
    ensures leftover.None? ==> r == files
    ensures leftover.Some? ==> output in r && r[output] == leftover.value
    ensures forall p :: p != output ==> (p in r <==> p in files) && (p in r ==> r[p] == files[p])
  {
    match leftover
    case None => files
    case Some(content) => files[output := content]
  }

  class Host {
    var files: map<Path, Bytes>
    var events: seq<Event>

    constructor (files: map<Path, Bytes>)
      ensures this.files == files && events == []
    {
      this.files := files;
      events := [];
    }

    /** `Files.exists(path)` for regular files. */
    function Exists(path: Path): bool
      reads this
    {
      path in files
    }

    /** `System.out.println(line)`. */
    method Print(line: string)
      modifies this
      ensures events == old(events) + [Stdout(line)] && files == old(files)
    {
      events := events + [Stdout(line)];
    }

    /** Records an outgoing request or tool run. */
    method Record(e: Event)
      modifies this
      ensures events == old(events) + [e] && files == old(files)
    {
      events := events + [e];
    }

    /** Writes (creating or replacing) a regular file. */
    method Write(path: Path, content: Bytes)
      modifies this
      ensures files == old(files)[path := content] && events == old(events)
    {
      files := files[path := content];
    }

    /** `Files.delete(path)` of a file that exists. */
    method Delete(path: Path)
      requires path in files
      modifies this
      ensures files == old(files) - {path} && events == old(events)
    {
      files := files - {path};
    }
  }

  /** The HTTP requests in a trace, in the order they were sent. */
  function Requests(events: seq<Event>): (r: seq<string>)
    ensures |r| <= |events|
  {
    if events == [] then []
    else Requests(events[..|events| - 1]) + match events[|events| - 1] { case HttpGet(u) => [u] case _ => [] }
  }

  /** The trace's requests after appending are those before, then those of the appended events. */
  lemma {:induction false} RequestsAppend(a: seq<Event>, b: seq<Event>)
    ensures Requests(a + b) == Requests(a) + Requests(b)
    decreases |b|
  {
    if b != [] {
      assert (a + b)[..|a + b| - 1] == a + b[..|b| - 1];
      RequestsAppend(a, b[..|b| - 1]);
    } else {
      assert a + b == a;
    }
  }
}
