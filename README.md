# mccmp, modelled in Dafny

mccmp compares two Minecraft versions. It takes a 'from' and a 'to' version id and does the following:

1. It looks up both versions in Mojang's global version manifest and fetches each version's manifest.
2. It downloads the libraries of both versions, plus both game jars, into `libraries/`.
3. For each version, it fetches the first listed Yarn mappings release and remaps the game jar with it.
4. It decompiles both remapped jars into `sources/`.
5. It diffs the two source trees into `diffs/<from>-<to>.jar`, then unpacks that jar into `diffs/<from>-<to>`.

This project models the deterministic logic that surrounds the network and tool calls, and proves what that logic promises. The parts are:

- Maven coordinates and their repository path and URL.
- The sequential fallback combinator `runFirstSuccessful`, with the cause chain it inspects.
- The download cache and HTTP status classification.
- The mappings file naming and Tiny v1 detection.
- The orchestration in `Mccmp`:
  - the version lookup;
  - the library union and download;
  - the synthetic game-jar library and the Yarn paths;
  - remapped-jar naming;
  - the decompiler arguments;
  - the diff paths and the unzip copy.

The files:

- `common.dfy`: `Option`, `Result`, `Pair` and bytes.
- `paths.dfy`: the subset of the Unix `java.nio.file.Path` that the program relies on.
  - Parsing drops empty name elements.
  - It covers `resolve`, `resolveSibling`, `getParent`, `getFileName`, `toAbsolutePath` and `toString`.
- `exceptions.dfy`: Java throwables as values: a class, a message and a cause. It also has the completion `Outcome` of a future, and decimal printing and parsing of `int`.
- `coordinates.dfy`: `DependencyCoordinates`.
- `futures.dfy`: `Futures`.
  - A future is the outcome it completes with.
  - A dependent stage stores a failure wrapped in a `CompletionException` unless it already is one. This matches `CompletableFuture`'s `encodeThrowable` and `encodeRelay`.
- `host.dfy`: the machine as a class with the regular files (`map<Path, Bytes>`) and one ordered trace of events. The events are lines printed, HTTP requests, and runs of the external tools.
- `download.dfy`: `Download`.
- `mappings.dfy`: `Mappings`.
- `data.dfy`: the records of `data/`, as datatypes. Record equality is structural, as the `HashSet` union relies on.
- `mccmp.dfy`: `Mccmp`.

Values the outside world supplies are parameters:

- `respond` gives the HTTP response for each URL.
- The JSON decoders are functions from the body to a value or the throwable the adapter's `fromJson` throws.
- The working directory is given as its name elements.
- The external tools' results are given as values. The remapper and the name-proposal tool either write their output file or throw, leaving whatever they had written (`Host.ToolRun`). The diff tool's archive is given, or the diff tool's failure, or a failure while unpacking with the entries copied before it (`Mccmp.DiffOutcome`).

Behaviour of the code that a reader might not expect (the model follows the code):

- `toUrlPart` is not injective in general. Groups `a.b` and `a/b` give the same path (`Coordinates.DotAndSlashGroupsCollide`). It is injective when no field contains `/` (`Coordinates.ToUrlPartInjective`).
- `Download.file` makes at most one request only after a success. After a failed download nothing is written, so a second call requests again (`Download.FileTwice`).
- `resolveMetadata` has no fallback to another mappings artifact and does not use `runFirstSuccessful`. An empty release listing fails with an `IndexOutOfBoundsException`.
- `fromVersion == toVersion` always fails with "could not find 'to' version" (`Mccmp.SameVersionNeverFound`, `Mccmp.Run`).

## Model

| member | source | states |
|---|---|---|
| Coordinates.WithoutClassifier | src/main/java/juuxel/mccmp/DependencyCoordinates.java:17-19 | the three-argument constructor keeps group, name and version and has no classifier |
| Coordinates.ToUrlPart | src/main/java/juuxel/mccmp/DependencyCoordinates.java:21-39 | the path always ends in ".jar"; the group directory has the group's length, has no '.', and is followed by '/' |
| Coordinates.UrlPartElements | src/main/java/juuxel/mccmp/DependencyCoordinates.java:21-39 | when no field contains '/' and name and version are not empty, the path parses into the group's directories followed by exactly three elements: the name, the version and `<name>-<version>[-<classifier>].jar` |
| Coordinates.UnclassifiedFileName | src/main/java/juuxel/mccmp/DependencyCoordinates.java:17-37 | coordinates from the three-argument constructor end in "/<name>-<version>.jar", with no classifier segment |
| Coordinates.ClassifierInsertion | src/main/java/juuxel/mccmp/DependencyCoordinates.java:33-37 | with a classifier, the path is the unclassified path with ".jar" replaced by "-<classifier>.jar" |
| Coordinates.ToFabricMavenUrl | src/main/java/juuxel/mccmp/DependencyCoordinates.java:41-43 | the URL is the Fabric Maven root followed by exactly the repository path |
| Coordinates.ToUrlPartInjective | src/main/java/juuxel/mccmp/DependencyCoordinates.java:21-39 | two '/'-free coordinates with the same path are equal |
| Coordinates.DotAndSlashGroupsCollide | src/main/java/juuxel/mccmp/DependencyCoordinates.java:23 | the groups "a.b" and "a/b" give the same path, so the path is not injective in general |
| Coordinates.ReplaceInjective | src/main/java/juuxel/mccmp/DependencyCoordinates.java:23 | replacing '.' by '/' is injective on '/'-free groups |
| Futures.CauseChain | src/main/java/juuxel/mccmp/Futures.java:38-40 | the chain starts with the throwable and its last element has no cause |
| Futures.CauseChainLinks | src/main/java/juuxel/mccmp/Futures.java:39 | each element's cause is the next element of the chain |
| Futures.AnyMatchIsChainMatch | src/main/java/juuxel/mccmp/Futures.java:27 | the cause-by-cause test the handler applies holds if and only if some element of the cause chain satisfies the predicate |
| Futures.Rethrown | src/main/java/juuxel/mccmp/Futures.java:31 | a RuntimeException is rethrown as is; any other throwable is wrapped in a RuntimeException whose cause is the original |
| Futures.Encoded | src/main/java/juuxel/mccmp/Futures.java:26-32 | a stage's stored failure is a CompletionException: the throwable itself if it is one, otherwise a wrapper around it |
| Futures.RunFirstSuccessful | src/main/java/juuxel/mccmp/Futures.java:17-36 | an empty list throws NoSuchElementException with nothing invoked; otherwise the loop returns the completion and invoked candidates of the handler chain (`Chain`) |
| Futures.InvokedInOrder | src/main/java/juuxel/mccmp/Futures.java:21-33 | for any predicate, candidate 0 is invoked first and exactly once, and candidates are invoked at most once each in increasing order |
| Futures.InvokedIsPrefix | src/main/java/juuxel/mccmp/Futures.java:21-35 | when the predicate rejects the chain's own wrappers, the invoked candidates are exactly 0, 1, …, m-1 for some m ≥ 1 |
| Futures.ChainShape | src/main/java/juuxel/mccmp/Futures.java:21-35 | with wrappers rejected: the invoked set is a prefix; short of the end, the chain has succeeded or holds a failure no handler resumes; when all are invoked, the result is the last candidate's |
| Futures.InvokedGrows | src/main/java/juuxel/mccmp/Futures.java:24-33 | each further handler only appends to the invoked candidates |
| Futures.SuccessIsFinal | src/main/java/juuxel/mccmp/Futures.java:24-33 | an invoked candidate that succeeds is the last one invoked, and its value is the result |
| Futures.ContinuesIffMatch | src/main/java/juuxel/mccmp/Futures.java:27-28 | with wrappers rejected, candidate k is invoked if and only if candidate k-1 was invoked and failed with a cause chain the predicate matches |
| Futures.RejectionStops | src/main/java/juuxel/mccmp/Futures.java:27-31 | with wrappers rejected, a non-matching failure of an invoked candidate that is not the last ends the chain; it propagates as `Rethrown` (line 31), inside the stage's CompletionException |
| Futures.StuckPersists | src/main/java/juuxel/mccmp/Futures.java:24-33 | a success, or a failure stored as a CompletionException that no predicate matches, is carried unchanged through every later stage |
| Futures.LastFailurePropagates | src/main/java/juuxel/mccmp/Futures.java:21-35 | the last candidate's failure becomes the result without a predicate check |
| Futures.RejectedFailureResumedLater | src/main/java/juuxel/mccmp/Futures.java:24-33 | the code as written: a predicate that accepts RuntimeException skips candidate 1 after a rejected IOException and runs candidate 2 |
| Futures.Attempt | src/main/java/juuxel/mccmp/Futures.java:17-36 | the intended combinator: the invoked candidates are always a contiguous run starting at the first |
| Futures.AttemptContinuesIffMatch | src/main/java/juuxel/mccmp/Futures.java:27-28 | for every predicate, the intended combinator moves past candidate j if and only if j's failure matches |
| Futures.AgreesWhenWrappersRejected | src/main/java/juuxel/mccmp/Futures.java:17-36 | when the predicate rejects the wrappers, the code as written invokes the same candidates as the intended combinator |
| Download.StatusCodeException | src/main/java/juuxel/mccmp/Download.java:78-89 | the exception is a RuntimeException carrying the code, with message "Status code: " followed by the decimal code |
| Download.StatusCodeExceptionCarriesCode | src/main/java/juuxel/mccmp/Download.java:81-88 | `statusCode()` returns exactly the code, and the code can be read back from the message |
| Exceptions.DecimalRoundTrip | src/main/java/juuxel/mccmp/Download.java:82 | the decimal text of any int parses back to the same int |
| Download.CheckStatus | src/main/java/juuxel/mccmp/Download.java:68-76 | there is no failure if and only if the status is 200; otherwise the failure is the StatusCodeException of that exact status |
| Download.Download | src/main/java/juuxel/mccmp/Download.java:33-40 | ":downloading <url>" is printed, and then the request for the URL is sent; no file changes |
| Download.File | src/main/java/juuxel/mccmp/Download.java:61-66 | an existing path is returned with no event and no change; otherwise exactly one logged request; on 200 the body is written and the path returned; any other status fails with that code's exception, wrapped as the future stores it, and writes nothing |
| Download.Json | src/main/java/juuxel/mccmp/Download.java:50-59 | one logged request; a non-200 status fails with the status exception and nothing is decoded; an IOException from the adapter surfaces in a plain RuntimeException, and any other exception it throws escapes without a RuntimeException wrapper, inside the CompletionException |
| Download.DecodeFailureIsNotStatus | src/main/java/juuxel/mccmp/Download.java:53-57 | when the adapter's exception carries no status code, no element of the cause chain `json` fails with carries one |
| Download.DecodeFailureDepth | src/main/java/juuxel/mccmp/Download.java:53-57 | malformed JSON (an IOException) lies under a RuntimeException inside the CompletionException, while a JsonDataException lies directly inside the CompletionException |
| Download.NotFoundRejectsWrappers | src/main/java/juuxel/mccmp/Futures.java:27 | the "not found" predicate accepts neither a RuntimeException nor a CompletionException wrapper, so the combinator's wrapping never changes its decisions |
| Download.NotFoundIsVisible | src/main/java/juuxel/mccmp/Download.java:74 | a 404 status failure is found in the cause chain through the CompletionException wrapper |
| Download.FileTwice | src/main/java/juuxel/mccmp/Download.java:61-66 | after a successful first fetch the second returns the path, and the pair requests the URL exactly once if the path was missing and never if it existed; after a failed first fetch the second requests the URL again |
| Host.RequestsAppend | src/main/java/juuxel/mccmp/Download.java:38-39 | the requests of a concatenated trace are those of the first part followed by those of the second |
| Mappings.OutputFileName | src/main/java/juuxel/mccmp/Mappings.java:15 | fails if and only if the name is shorter than 4, with the StringIndexOutOfBoundsException "Range [0, <n-4>) out of bounds for length <n>" that `substring` throws; otherwise the last four characters are replaced by ".tiny" |
| Mappings.JarNameGivesTinyName | src/main/java/juuxel/mccmp/Mappings.java:15 | `<stem>.jar` gives `<stem>.tiny` |
| Mappings.ExtensionNotChecked | src/main/java/juuxel/mccmp/Mappings.java:15 | the extension is not checked: "yarn.zip" gives "yarn.tiny", and "abc" fails with "Range [0, -1) out of bounds for length 3" |
| Mappings.OutputPath | src/main/java/juuxel/mccmp/Mappings.java:14-16 | the output is a sibling of the jar named by `OutputFileName`; a root fails with the JVM's NullPointerException for the null file name, and the empty path fails as the name is too short |
| Mappings.OutputPathIsTinySibling | src/main/java/juuxel/mccmp/Mappings.java:14-16 | the output path exists if and only if the jar has a name of at least four characters, and it is then the jar's directory with `<name minus its last four characters>.tiny` |
| Mappings.IsTinyV1 | src/main/java/juuxel/mccmp/Mappings.java:54-56 | true if and only if there is a first character and it is 'v'; an empty file is not v1 |
| Mappings.HeadersDetected | src/main/java/juuxel/mccmp/Mappings.java:55 | content starting "v1" is detected as v1; content starting "tiny" is not |
| Mappings.Propagated | src/main/java/juuxel/mccmp/Mappings.java:44-48 | an IOException, a RuntimeException or a java.lang.Error escapes as it is; any other exception escapes in a RuntimeException with it as cause |
| Mappings.ExtractMappings | src/main/java/juuxel/mccmp/Mappings.java:13-52 | for every case (bad jar name, existing output, missing jar or entry, v2 mappings, v1 mappings with the tool succeeding or failing) the contract gives the returned path or exception, the exact new files and the exact new trace |
| Mccmp.FindVersionUrls | src/main/java/juuxel/mccmp/Mccmp.java:53-65 | the loop with its `if`/`else if` computes `Lookup` |
| Mccmp.LastUrlIsLastMatch | src/main/java/juuxel/mccmp/Mccmp.java:56-62 | the URL kept is that of the last matching entry, and there is none if and only if no entry matches |
| Mccmp.LookupOutcome | src/main/java/juuxel/mccmp/Mccmp.java:56-65 | the lookup succeeds if and only if some entry has the 'from' id and some other entry has the 'to' id but not the 'from' id; a missing 'from' is reported before a missing 'to'; the URLs are those of the last such entries |
| Mccmp.SameVersionNeverFound | src/main/java/juuxel/mccmp/Mccmp.java:57-65 | comparing a version with itself always fails the lookup |
| Mccmp.ResolveVersionManifests | src/main/java/juuxel/mccmp/Mccmp.java:51-70 | only the global manifest is requested when it or the lookup fails; otherwise the 'from' and 'to' manifests are requested, and the stage succeeds if and only if both are fetched and decoded |
| Mccmp.LibraryForMinecraft | src/main/java/juuxel/mccmp/Mccmp.java:233-243 | fails if and only if there is no "client" download, with the JVM's NullPointerException for the null `get("client")`; the name is "net.minecraft:minecraft:<id>", the path is `toUrlPart` of ("net.minecraft", "minecraft", id), and the URL is the client download's |
| Mccmp.MinecraftPathIsUrlPart | src/main/java/juuxel/mccmp/Mccmp.java:238 | the written-out game jar path equals `toUrlPart` of ("net.minecraft", "minecraft", id) |
| Mccmp.MinecraftLibrariesDiffer | src/main/java/juuxel/mccmp/Mccmp.java:73-76 | two different version ids give two different game-jar libraries in the union |
| Mccmp.YarnPathIsUrlPart | src/main/java/juuxel/mccmp/Mccmp.java:169-170 | the written-out mappings path and URL equal `toUrlPart` and `toFabricMavenUrl` of ("net.fabricmc", "yarn", v, "mergedv2") |
| Mccmp.YarnJarLocation | src/main/java/juuxel/mccmp/Mccmp.java:169-171 | for a plain version, the mappings jar is libraries/net/fabricmc/yarn/<v>/yarn-<v>-mergedv2.jar |
| Mccmp.ElementsBound | src/main/java/juuxel/mccmp/Mccmp.java:71 | a list has at least as many entries as distinct elements |
| Mccmp.CollectLibraries | src/main/java/juuxel/mccmp/Mccmp.java:71-76 | a library is in the set if and only if it is a 'from' library, a 'to' library or one of the two game jars; duplicates collapse, so there are at most as many as listed plus two |
| Mccmp.DownloadLibraries | src/main/java/juuxel/mccmp/Mccmp.java:71-90 | existing files are kept; each new file is a successful download of a library stored at its path; every event is a fetch of a library; at most one request is sent per library whose file was missing, so none when all are present; success means every library's file is present; all-200 responses give success; a failure is one library's status failure for a file that was absent |
| Mccmp.ResolveMetadata | src/main/java/juuxel/mccmp/Mccmp.java:165-185 | the listing is requested first; a failed or empty listing ends the stage; the first release's jar is fetched into the library directory (or found there); the metadata has the game jar at the Minecraft library's path and the mappings jar present |
| Mccmp.ResolveBoth | src/main/java/juuxel/mccmp/Mccmp.java:51-96 | a lookup failure ends the stage after the global manifest with no file change (so always when from = to); on success both game jars, both mappings jars and every library of both manifests (the remapper's classpath) exist |
| Mccmp.RemappedJarNaming | src/main/java/juuxel/mccmp/Mccmp.java:125-126 | the remapped jar is next to the game jar, named "minecraft-<id>-<mappings jar name>" |
| Mccmp.Classpath | src/main/java/juuxel/mccmp/Mccmp.java:145-149 | the class path has one entry per library of the version's own manifest, in order, each at its path in the library directory |
| Mccmp.Unchecked | src/main/java/juuxel/mccmp/Mccmp.java:158-160 | an IOException escapes in an UncheckedIOException with it as cause; anything else escapes as it is |
| Mccmp.Remap | src/main/java/juuxel/mccmp/Mccmp.java:124-163 | an existing remapped jar is returned with nothing done; otherwise the line is printed, the remapper is run on exactly the version's own libraries, and its jar is written; or its failure escapes, leaving whatever the remapper had written at the jar's path |
| Mccmp.SourcePath | src/main/java/juuxel/mccmp/Mccmp.java:201-203 | the source path is output/sources/<jar file name>; it fails if and only if the jar is a root |
| Mccmp.DecompilerArguments | src/main/java/juuxel/mccmp/Mccmp.java:188-196 | one "-e=<absolute library path>" per library in manifest order, then the game jar, then its source path: libraries + 2 arguments; it fails exactly as the source path does |
| Mccmp.DecompileArgs | src/main/java/juuxel/mccmp/Mccmp.java:188-196 | the loop builds exactly `DecompilerArguments` |
| Mccmp.LibraryArgumentIsAbsolute | src/main/java/juuxel/mccmp/Mccmp.java:191-192 | every library argument is "-e=" followed by an absolute path |
| Mccmp.Decompile | src/main/java/juuxel/mccmp/Mccmp.java:187-199 | a source-path failure happens before anything is printed; otherwise the trace gains exactly ":decompiling <id>" and the decompiler run with `DecompilerArguments`; no file changes |
| Mccmp.DiffPathsShape | src/main/java/juuxel/mccmp/Mccmp.java:108-110 | for plain version ids the outputs are diffs/<from>-<to>.jar and diffs/<from>-<to>, and they are distinct |
| Mccmp.CopiedStep | src/main/java/juuxel/mccmp/Mccmp.java:220-227 | handling one more archive entry adds its file if it is a regular file, and nothing for a directory |
| Mccmp.Unzip | src/main/java/juuxel/mccmp/Mccmp.java:217-230 | the new files are the old ones overlaid with every regular file of the archive at its mirrored path; directories and other files are untouched |
| Mccmp.CopiedPlacement | src/main/java/juuxel/mccmp/Mccmp.java:223-226 | each regular entry lands at output-dir resolved with its relative path, with its content; everything copied is such an entry and lies under the output directory |
| Mccmp.Diff | src/main/java/juuxel/mccmp/Mccmp.java:205-231 | ":diffing..." is printed and the diff tool run; on its failure nothing else happens; otherwise ":unzipping..." is printed; a failure opening or walking the archive leaves just the entries copied before it; otherwise the whole archive is unpacked |
| Mccmp.CompareVersions | src/main/java/juuxel/mccmp/Mccmp.java:98-121 | no file disappears; success means the diff archive was produced and every file of it is in place under diffs/<from>-<to> |
| Mccmp.Run | src/main/java/juuxel/mccmp/Mccmp.java:49-122 | no file disappears; from = to fails after the global manifest with no file change; success leaves every file of the diff archive in place |
| Paths.SegmentsJoin | src/main/java/juuxel/mccmp/Mccmp.java:223-224 | parsing joined name elements gives them back |
| Paths.ResolveJoin | src/main/java/juuxel/mccmp/Mccmp.java:223-224 | resolving a joined relative path appends exactly its elements |
| Paths.ResolveSiblingName | src/main/java/juuxel/mccmp/Mccmp.java:125-126 | resolving a single name as a sibling replaces the last element and keeps the rest |

## Findings

| source | as written | input that shows it | evidently intended | confidence | as-written member | corrected member |
|---|---|---|---|---|---|---|
| src/main/java/juuxel/mccmp/Futures.java:24-33 | each handler is attached to the previous handler's future, so a failure a handler rejects and rethrows is examined again by every later handler, now wrapped in RuntimeException/CompletionException | a predicate accepting RuntimeException, with candidates [fails with IOException, succeeds with 1, succeeds with 2]: candidate 0 is rejected, the rethrown RuntimeException is accepted by the next handler, candidate 1 is skipped and candidate 2 runs, giving 2 | a rejected failure ends the chain; candidate k+1 runs only after candidate k failed with a matching cause chain | low; not executed | Futures.RejectedFailureResumedLater | Futures.Attempt |

`Futures.AttemptContinuesIffMatch` proves the intended property for the corrected combinator. `Futures.AgreesWhenWrappersRejected` shows that the code as written behaves the same whenever the predicate never accepts the wrappers. A predicate that tests for `StatusCodeException` is such a predicate.

## Left out

- The HTTP client and the thread pools. `CompletableFuture` scheduling and the concurrency of the parallel downloads, of the two `resolveMetadata` calls and of the two remaps are also left out. Stages are modelled in one fixed order, and their trace events are not interleaved. The exists-then-download check is not atomic, and nothing is claimed about concurrent callers.
- Transport failures of the HTTP client (no response at all). Every request gets a response from `respond`.
- Moshi JSON decoding and `TypeToken` reflection. Decoders are parameters.
- The internals of the remapper, the decompiler, the diff tool and the name-proposal tool. Each is one trace event, and its result is a parameter. Also left out:
  - the diff summary printed between ":diffing..." and ":unzipping...";
  - the jar the diff tool writes;
  - the source files the decompiler writes. The diff's archive is given directly.
- Jar and zip file systems. An archive is a map from relative name elements to a regular file or a directory, and the mappings entry of a mappings jar is a parameter.
- Directories. `Files.createDirectories` is not modelled, and neither is a regular file standing where a directory is needed.
- `Files.createTempFile`'s choice of name. The temporary file is a parameter required to be fresh.
- Mappings.ExtractMappings: a missing mappings jar is reported as NoSuchFileException. The exact exception the jar file system throws is not modelled.
- Download.Download: every URL is taken to be a valid URI. `URI.create` throws an IllegalArgumentException before anything is printed for a URL that is not, such as one holding a version id with a space ("1.14 Pre-Release 5") in the Yarn listing or Maven URL. URI syntax is not modelled.
- Mappings.IsTinyV1: the first character is read through a UTF-8 decoder. It throws a MalformedInputException (an IOException) when the part of the file it buffers is not valid UTF-8, and the extracted file then stays at the output path. The model compares the first byte with 'v' and has no such failure.
- Data.LibraryDownloads: the artifact is always present. In a manifest library without an `artifact` (one with native classifiers only), `downloads().artifact()` is null, and the code throws a NullPointerException where it reads the path (Mccmp.java:80, 148 and 191). Such libraries are not representable in the model.
- Paths: a name element may be "." or "..". Neither `resolve` nor the model normalises them, so "under the output directory" (`Mccmp.CopiedPlacement`) is a statement about name elements, not about where the file system puts the file.
- Mccmp.Decompile: the arguments are converted to an array and the decompiler's own exceptions are not modelled. It fails only as `getSourcePath` does.
- Mccmp.Run: it states only the lookup failure, that no file disappears, and where the unpacked diff lands. State that the tools themselves create is not modelled.
- Mccmp.CompareVersions: the remap failures surface wrapped in a CompletionException, as `join()` throws them, and the second remap runs even when the first fails. The exact trace of this stage is not stated.
- `Mccmp` does not use `DependencyCoordinates`, `Mappings` or `runFirstSuccessful`. They are modelled as they are written, and the lemmas connect the hard-coded paths to the coordinates.
- JVM exception messages: the messages of the two NullPointerExceptions the JVM raises (a null `get("client")` and a null `getFileName()`) follow the detailed-message format of Java 21, the toolchain the build selects, and so does the StringIndexOutOfBoundsException message of `substring` ("Range [b, e) out of bounds for length n"). They are written from those formats; a JVM run with the detailed NullPointerException messages turned off would give none, and older JDKs word the `substring` message differently.
- Java `int` width. Status codes and string lengths are unbounded integers, and no value in the pipeline comes near 2^31.
- The picocli command line, `main` and `System.exit`, and the build configuration.
