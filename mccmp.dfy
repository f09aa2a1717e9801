/**
 * The orchestration of a comparison run: finding both versions in the global manifest,
 * collecting and downloading the libraries of both, resolving each version's game jar and
 * mappings jar, naming the remapped jars, building the decompiler's arguments, and unpacking
 * the packaged diff.
 */
module Mccmp {
  import opened Common
  import opened Paths
  import opened Exceptions
  import opened Host
  import opened Data
  import opened Coordinates
  import Futures
  import Download

  const ManifestUrl: string := "https://piston-meta.mojang.com/mc/game/version_manifest_v2.json"
  const YarnListingUrl: string := "https://meta.fabricmc.net/v2/versions/yarn/"
  const MissingFrom: string := "could not find 'from' version"
  const MissingTo: string := "could not find 'to' version"

  // ----- Version lookup -----

  /** The URL of the last entry whose id satisfies `matches`. */
  function LastUrl(versions: seq<GlobalVersion>, matches: string -> bool): Option<string> {
    if versions == [] then None
    else if matches(versions[|versions| - 1].id) then Some(versions[|versions| - 1].url)
    else LastUrl(versions[..|versions| - 1], matches)
  }

  /** Entry `i` matches and no later entry does. */
  ghost predicate IsLastMatch(versions: seq<GlobalVersion>, matches: string -> bool, i: int) {
    0 <= i < |versions| && matches(versions[i].id) && forall j :: i < j < |versions| ==> !matches(versions[j].id)
  }

  /** `LastUrl` finds the last matching entry, and finds nothing exactly when no entry matches. */
  lemma {:induction false} LastUrlIsLastMatch(versions: seq<GlobalVersion>, matches: string -> bool)
    ensures LastUrl(versions, matches).None? <==> forall i :: 0 <= i < |versions| ==> !matches(versions[i].id)
    ensures LastUrl(versions, matches).Some? ==>
      exists i :: IsLastMatch(versions, matches, i) && LastUrl(versions, matches).value == versions[i].url
  {
    if versions != [] {
      var n := |versions|;
      var init := versions[..n - 1];
      LastUrlIsLastMatch(init, matches);
      assert forall i :: 0 <= i < n - 1 ==> init[i] == versions[i];
      if !matches(versions[n - 1].id) && LastUrl(init, matches).Some? {
        var i :| IsLastMatch(init, matches, i) && LastUrl(init, matches).value == init[i].url;
        assert IsLastMatch(versions, matches, i);
      }
    }
  }

  /** Matches the 'from' id. */
  function IsFrom(fromVersion: string): string -> bool {
    id => id == fromVersion
  }

  /** Matches the 'to' id, but only where the `else` branch is reached: the id is not the 'from' id. */
  function IsTo(fromVersion: string, toVersion: string): string -> bool {
    id => id != fromVersion && id == toVersion
  }

  /** The outcome of the lookup: both URLs, or the NullPointerException `requireNonNull` throws. */
  function Lookup(manifest: GlobalManifest, fromVersion: string, toVersion: string): Result<Pair<string, string>, Throwable> {
    var fromUrl := LastUrl(manifest.versions, IsFrom(fromVersion));
    var toUrl := LastUrl(manifest.versions, IsTo(fromVersion, toVersion));
    if fromUrl.None? then Failure(Raise(NullPointerError, MissingFrom))
    else if toUrl.None? then Failure(Raise(NullPointerError, MissingTo))
    else Success(Pair(fromUrl.value, toUrl.value))
  }

  /** The scan over the global manifest's entries, with its `if` / `else if`. */
  method FindVersionUrls(manifest: GlobalManifest, fromVersion: string, toVersion: string)
    returns (r: Result<Pair<string, string>, Throwable>)
    ensures r == Lookup(manifest, fromVersion, toVersion)
  {
    var fromUrl: Option<string> := None;
    var toUrl: Option<string> := None;
    var vs := manifest.versions;
    var i := 0;
    while i < |vs|
      invariant 0 <= i <= |vs|
      invariant fromUrl == LastUrl(vs[..i], IsFrom(fromVersion))
      invariant toUrl == LastUrl(vs[..i], IsTo(fromVersion, toVersion))
    {
      assert vs[..i + 1][..i] == vs[..i];
      if vs[i].id == fromVersion {
        fromUrl := Some(vs[i].url);
      } else if vs[i].id == toVersion {
        toUrl := Some(vs[i].url);
      }
      i := i + 1;
    }
    assert vs[..i] == vs;
    if fromUrl.None? {
      return Failure(Raise(NullPointerError, MissingFrom));
    }
    if toUrl.None? {
      return Failure(Raise(NullPointerError, MissingTo));
    }
    r := Success(Pair(fromUrl.value, toUrl.value));
  }

  /**
   * The lookup succeeds exactly when some entry has the 'from' id and some entry has the 'to'
   * id but not the 'from' id; a missing 'from' is reported before a missing 'to'; the URLs
   * are those of the last such entries.
   */
  lemma LookupOutcome(manifest: GlobalManifest, fromVersion: string, toVersion: string)
    ensures var vs := manifest.versions;
      var r := Lookup(manifest, fromVersion, toVersion);
      && ((forall i :: 0 <= i < |vs| ==> vs[i].id != fromVersion) ==> r == Failure(Raise(NullPointerError, MissingFrom)))
      && ((exists i :: 0 <= i < |vs| && vs[i].id == fromVersion)
          && (forall i :: 0 <= i < |vs| ==> vs[i].id == fromVersion || vs[i].id != toVersion)
          ==> r == Failure(Raise(NullPointerError, MissingTo)))
      && ((exists i :: 0 <= i < |vs| && vs[i].id == fromVersion)
          && (exists i :: 0 <= i < |vs| && vs[i].id != fromVersion && vs[i].id == toVersion)
          ==> r.Success?)
      && (r.Success? ==>
          && (exists i :: IsLastMatch(vs, IsFrom(fromVersion), i) && r.value.first == vs[i].url)
          && (exists i :: IsLastMatch(vs, IsTo(fromVersion, toVersion), i) && r.value.second == vs[i].url))
  {
    LastUrlIsLastMatch(manifest.versions, IsFrom(fromVersion));
    LastUrlIsLastMatch(manifest.versions, IsTo(fromVersion, toVersion));
  }

  /** Comparing a version with itself always fails: the `else if` never sees the 'from' entry. */
  lemma SameVersionNeverFound(manifest: GlobalManifest, version: string)
    ensures Lookup(manifest, version, version).Failure?
  {
    LastUrlIsLastMatch(manifest.versions, IsTo(version, version));
  }

  // ----- Libraries -----

  /** The coordinates of a version's game jar. */
  function MinecraftCoordinates(id: string): DependencyCoordinates {
    WithoutClassifier("net.minecraft", "minecraft", id)
  }

  /** A two-part group such as "net.minecraft" maps to the two directories "net/minecraft". */
  lemma TwoPartGroup(a: string, b: string)
    requires '.' !in a && '.' !in b
    ensures Replace(a + "." + b, '.', '/') == a + "/" + b
  {
    ReplaceAppend(a, "." + b);
    ReplaceAppend(".", b);
    ReplaceNoDot(a);
    ReplaceNoDot(b);
    assert a + "." + b == a + ("." + b);
    assert a + "/" + b == a + ("/" + b);
  }

  /** The Maven path of coordinates with a two-part group and no classifier, written out. */
  lemma TwoPartUrlPart(a: string, b: string, name: string, version: string)
    requires '.' !in a && '.' !in b
    ensures ToUrlPart(WithoutClassifier(a + "." + b, name, version))
      == a + "/" + b + "/" + name + "/" + version + "/" + name + "-" + version + ".jar"
  {
    var c := WithoutClassifier(a + "." + b, name, version);
    TwoPartGroup(a, b);
    assert ClassifierSuffix(c.classifier) == "";
    var stem := a + "/" + b + "/" + name + "/" + version + "/" + name + "-" + version;
    assert stem + "" == stem;
  }

  // Regroup, RegroupFive, RegroupSix and the *Literals lemmas state nothing about the program:
  // they only regroup string concatenations and literal pieces so that the solver can match
  // the written-out paths against `ToUrlPart`, which it does not do unaided.

  /** Regrouping a path that repeats a version between a prefix and two affixes. */
  lemma Regroup(p: string, v: string, s: string, t: string)
    ensures ((p + v) + "/") + (s + v + t) == (((p + v) + ("/" + s)) + v) + t
  {
    assert ((p + v) + "/") + (s + v + t) == (p + v) + ("/" + s) + v + t;
  }

  /** Five pieces around a repeated version, regrouped into a prefix and one separator piece. */
  lemma RegroupFive(p: string, v: string, s1: string, s2: string, s3: string, t: string)
    ensures ((((p + v) + s1) + s2) + s3) + v + t == (((p + v) + (s1 + s2 + s3)) + v) + t
  {
  }

  /** The literal pieces of the game jar's path, regrouped (a solver aid). */
  lemma MinecraftLiterals()
    ensures "net" + "." + "minecraft" == "net.minecraft"
    ensures "net" + "/" + "minecraft" + "/" + "minecraft" + "/" == "net/minecraft/minecraft/"
    ensures "/" + "minecraft" + "-" == "/minecraft-"
  {
  }

  /** The path written out in `libraryForMinecraft` is the Maven path of the game's coordinates. */
  lemma MinecraftPathIsUrlPart(id: string)
    ensures "net/minecraft/minecraft/" + id + "/minecraft-" + id + ".jar" == ToUrlPart(MinecraftCoordinates(id))
  {
    MinecraftLiterals();
    TwoPartUrlPart("net", "minecraft", "minecraft", id);
    RegroupFive("net" + "/" + "minecraft" + "/" + "minecraft" + "/", id, "/", "minecraft", "-", ".jar");
  }

  /**
   * The detail message the JVM (Java 21, where detailed NullPointerException messages are on by
   * default) gives the exception thrown when `downloads().get("client")` is null.
   */
  const MissingClientMessage: string :=
    "Cannot invoke \"juuxel.mccmp.data.VersionManifest$Download.url()\" because the return value of \"java.util.Map.get(Object)\" is null"

  /**
   * `libraryForMinecraft(manifest)`: the version's game jar as a library, stored at the Maven
   * path of `net.minecraft:minecraft:<id>` and fetched from the "client" download; a manifest
   * without a "client" download makes `get("client").url()` throw.
   */
  function LibraryForMinecraft(manifest: VersionManifest): (r: Result<Library, Throwable>)
    ensures r.Failure? <==> "client" !in manifest.downloads
    ensures r.Failure? ==> r.error == Raise(NullPointerError, MissingClientMessage)
    ensures r.Success? ==>
      && r.value.name == "net.minecraft:minecraft:" + manifest.id
      && r.value.downloads.artifact.path == ToUrlPart(MinecraftCoordinates(manifest.id))
      && r.value.downloads.artifact.url == manifest.downloads["client"].url
  {
    if "client" !in manifest.downloads then
      Failure(Raise(NullPointerError, MissingClientMessage))
    else
      var id := manifest.id;
      var path := "net/minecraft/minecraft/" + id + "/minecraft-" + id + ".jar";
      MinecraftPathIsUrlPart(id);
      Success(Library("net.minecraft:minecraft:" + id,
        LibraryDownloads(Artifact(path, manifest.downloads["client"].url))))
  }

  // ----- Mappings jar -----

  /** The coordinates of a mappings release, merged v2 flavour. */
  function YarnCoordinates(version: string): DependencyCoordinates {
    DependencyCoordinates("net.fabricmc", "yarn", version, Some("mergedv2"))
  }

  /** The repository path `resolveMetadata` writes out for a mappings release. */
  function YarnPathStr(version: string): string {
    "net/fabricmc/yarn/" + version + "/yarn-" + version + "-mergedv2.jar"
  }

  /** The URL `resolveMetadata` writes out for a mappings release. */
  function YarnUrl(version: string): string {
    FabricMaven + YarnPathStr(version)
  }

  /** The Maven path of coordinates with a two-part group and a classifier, written out. */
  lemma TwoPartClassifiedUrlPart(a: string, b: string, name: string, version: string, classifier: string)
    requires '.' !in a && '.' !in b
    ensures ToUrlPart(DependencyCoordinates(a + "." + b, name, version, Some(classifier)))
      == a + "/" + b + "/" + name + "/" + version + "/" + name + "-" + version + "-" + classifier + ".jar"
  {
    TwoPartGroup(a, b);
  }

  /** Six pieces around a repeated version, regrouped into a prefix, one separator piece and one suffix. */
  lemma RegroupSix(p: string, v: string, s1: string, s2: string, s3: string, t1: string, t2: string, t3: string)
    ensures (((((((p + v) + s1) + s2) + s3) + v) + t1) + t2) + t3 == (((p + v) + (s1 + s2 + s3)) + v) + (t1 + t2 + t3)
  {
  }

  /** The literal pieces of the mappings jar's path and URL, regrouped (a solver aid). */
  lemma YarnLiterals()
    ensures "net" + "." + "fabricmc" == "net.fabricmc"
    ensures "net" + "/" + "fabricmc" + "/" + "yarn" + "/" == "net/fabricmc/yarn/"
    ensures "/" + "yarn" + "-" == "/yarn-"
    ensures "-" + "mergedv2" + ".jar" == "-mergedv2.jar"
  {
  }

  /** The written-out path and URL are those the coordinates of the release derive. */
  lemma YarnPathIsUrlPart(version: string)
    ensures YarnPathStr(version) == ToUrlPart(YarnCoordinates(version))
    ensures YarnUrl(version) == ToFabricMavenUrl(YarnCoordinates(version))
  {
    YarnLiterals();
    TwoPartClassifiedUrlPart("net", "fabricmc", "yarn", version, "mergedv2");
    RegroupSix("net" + "/" + "fabricmc" + "/" + "yarn" + "/", version, "/", "yarn", "-", "-", "mergedv2", ".jar");
  }

  /** The file name of a mappings release's jar. */
  function YarnFileName(version: Name): Name {
    "yarn-" + version + "-mergedv2.jar"
  }

  /** The directories and file name of a mappings release's jar. */
  function YarnNames(version: Name): seq<Name> {
    ["net", "fabricmc", "yarn", version, YarnFileName(version)]
  }

  /** The written-out path is those names joined. */
  lemma YarnPathJoin(version: Name)
    ensures YarnPathStr(version) == Join(YarnNames(version))
  {
    JoinFive("net", "fabricmc", "yarn", version, YarnFileName(version));
    YarnLiterals();
    Regroup("net" + "/" + "fabricmc" + "/" + "yarn" + "/", version, "yarn-", "-mergedv2.jar");
  }

  /** For a plain version string, the mappings jar lies five levels below the library directory. */
  lemma YarnJarLocation(libraryDir: Path, version: Name)
    ensures Resolve(libraryDir, YarnPathStr(version)) == Path(libraryDir.absolute, libraryDir.names + YarnNames(version))
  {
    YarnPathJoin(version);
    ResolveJoin(libraryDir, YarnNames(version));
  }

  // ----- Library union -----

  /** The elements of a list, as a set. */
  function Elements<T>(s: seq<T>): set<T> {
    set x | x in s
  }

  /** A list has at least as many entries as distinct elements. */
  lemma {:induction false} ElementsBound<T>(s: seq<T>)
    ensures |Elements(s)| <= |s|
  {
    if s != [] {
      ElementsBound(s[1..]);
      assert Elements(s) == {s[0]} + Elements(s[1..]);
    }
  }

  /**
   * The `HashSet` of every library of both versions plus both game jars: a library listed by
   * both versions, or twice by one, is downloaded once.
   */
  method CollectLibraries(fromManifest: VersionManifest, toManifest: VersionManifest, fromLibrary: Library, toLibrary: Library)
    returns (all: set<Library>)
    ensures forall l :: l in all <==>
      l in fromManifest.libraries || l in toManifest.libraries || l == fromLibrary || l == toLibrary
    ensures |all| <= |fromManifest.libraries| + |toManifest.libraries| + 2
  {
    all := Elements(fromManifest.libraries);
    all := all + Elements(toManifest.libraries);
    all := all + {fromLibrary};
    all := all + {toLibrary};
    ElementsBound(fromManifest.libraries);
    ElementsBound(toManifest.libraries);
  }

  /** Two different versions contribute two different game-jar libraries. */
  lemma MinecraftLibrariesDiffer(m1: VersionManifest, m2: VersionManifest)
    requires m1.id != m2.id
    requires LibraryForMinecraft(m1).Success? && LibraryForMinecraft(m2).Success?
    ensures LibraryForMinecraft(m1).value != LibraryForMinecraft(m2).value
  {
    var p := "net.minecraft:minecraft:";
    assert (p + m1.id)[|p|..] == m1.id;
    assert (p + m2.id)[|p|..] == m2.id;
  }

  // ----- Library downloads -----

  /** Where a library's jar is stored: its artifact path resolved against the library directory. */
  function LibraryPath(libraryDir: Path, library: Library): Path {
    Resolve(libraryDir, library.downloads.artifact.path)
  }

  /** An event `file` produces while fetching one of `libraries`. */
  predicate IsLibraryFetch(e: Event, libraries: set<Library>) {
    exists l :: l in libraries && (e == Stdout(":downloading " + l.downloads.artifact.url) || e == HttpGet(l.downloads.artifact.url))
  }

  /** The response carries `content` with status 200. */
  predicate Served(response: Download.Response, content: Bytes) {
    response.status == 200 && content == response.body
  }

  /** The response's status is not 200, and `e` is how `file` reports it. */
  predicate Refused(response: Download.Response, e: Throwable) {
    response.status != 200 && e == Futures.Encoded(Download.StatusCodeException(response.status))
  }

  /** `content` is what a successful download of one of `libraries` stored at `p`. */
  ghost predicate DownloadedTo(libraryDir: Path, libraries: set<Library>, respond: string -> Download.Response, p: Path, content: Bytes) {
    exists l :: l in libraries && LibraryPath(libraryDir, l) == p && Served(respond(l.downloads.artifact.url), content)
  }

  /** `e` is the failure of fetching one of `libraries` whose file did not exist in `files`. */
  ghost predicate FailedFetch(libraryDir: Path, libraries: set<Library>, respond: string -> Download.Response, files: map<Path, Bytes>, e: Throwable) {
    exists l :: l in libraries && LibraryPath(libraryDir, l) !in files && Refused(respond(l.downloads.artifact.url), e)
  }

  /**
   * What the library downloads keep from the start `files0`, `events0` up to `files`, `events`,
   * once the libraries in `fetched` have been fetched and `failure` is the first failure.
   */
  ghost predicate FetchedSoFar(libraryDir: Path, libraries: set<Library>, respond: string -> Download.Response,
      files0: map<Path, Bytes>, events0: seq<Event>, files: map<Path, Bytes>, events: seq<Event>,
      fetched: set<Library>, failure: Option<Throwable>)
  {
    && (forall p :: p in files0 ==> p in files && files[p] == files0[p])
    && (forall p :: p in files && p !in files0 ==> DownloadedTo(libraryDir, libraries, respond, p, files[p]))
    && |events| >= |events0| && events[..|events0|] == events0
    && (forall i :: |events0| <= i < |events| ==> IsLibraryFetch(events[i], libraries))
    && (failure.None? ==> forall l :: l in fetched ==> LibraryPath(libraryDir, l) in files)
    && ((forall l :: l in libraries ==> respond(l.downloads.artifact.url).status == 200) ==> failure.None?)
    && (failure.Some? ==> FailedFetch(libraryDir, libraries, respond, files0, failure.value))
  }

  /** Fetching one more library, as `Download.File` does, keeps what the downloads so far kept. */
  lemma FetchStep(libraryDir: Path, libraries: set<Library>, respond: string -> Download.Response,
      files0: map<Path, Bytes>, events0: seq<Event>, files: map<Path, Bytes>, events: seq<Event>,
      fetched: set<Library>, failure: Option<Throwable>,
      library: Library, files1: map<Path, Bytes>, events1: seq<Event>, outcome: Outcome<Path>)
    requires FetchedSoFar(libraryDir, libraries, respond, files0, events0, files, events, fetched, failure)
    requires library in libraries
    requires var path, url, response := LibraryPath(libraryDir, library), library.downloads.artifact.url, respond(library.downloads.artifact.url);
      && (path in files ==> outcome == Ok(path) && files1 == files && events1 == events)
      && (path !in files ==>
            && events1 == events + Download.Fetch(url)
            && (response.status == 200 ==> outcome == Ok(path) && files1 == files[path := response.body])
            && (response.status != 200 ==>
                  outcome == Err(Futures.Encoded(Download.StatusCodeException(response.status))) && files1 == files))
    ensures FetchedSoFar(libraryDir, libraries, respond, files0, events0, files1, events1, fetched + {library},
      if outcome.Err? && failure.None? then Some(outcome.error) else failure)
  {
    var url := library.downloads.artifact.url;
    assert forall i :: |events0| <= i < |events1| ==> i < |events| || IsLibraryFetch(events1[i], libraries) by {
      assert events1 == events || events1 == events + Download.Fetch(url);
    }
  }

  /** The libraries whose file is not among `files`: the only ones a fetch has to request. */
  function Missing(libraryDir: Path, libraries: set<Library>, files: map<Path, Bytes>): (r: set<Library>)
    ensures forall l :: l in r <==> l in libraries && LibraryPath(libraryDir, l) !in files
  {
    set l | l in libraries && LibraryPath(libraryDir, l) !in files
  }

  /** A subset is no larger than the set. */
  lemma SubsetNoLarger(a: set<Library>, b: set<Library>)
    requires a <= b
    ensures |a| <= |b|
  {
    assert b == a + (b - a);
  }

  /**
   * `file` for every library of the set, in no particular order, then `allOf(...).join()`:
   * existing files are kept, every new file is the body of a successful download of a library
   * stored there, every fetch belongs to some library, and the join succeeds exactly when every
   * library's file is in place; a failure is one library's status failure. Each library of the
   * deduplicated set is fetched once, so at most one request is sent per library whose file was
   * missing at the start, and none at all when every file is already in place.
   * `respond` gives the response the server sends for a URL.
   */
  method DownloadLibraries(h: Host, libraryDir: Path, libraries: set<Library>, respond: string -> Download.Response)
    returns (r: Outcome<()>)
    modifies h
    ensures forall p :: p in old(h.files) ==> p in h.files && h.files[p] == old(h.files)[p]
    ensures forall p :: p in h.files && p !in old(h.files) ==> DownloadedTo(libraryDir, libraries, respond, p, h.files[p])
    ensures |h.events| >= |old(h.events)| && h.events[..|old(h.events)|] == old(h.events)
    ensures forall i :: |old(h.events)| <= i < |h.events| ==> IsLibraryFetch(h.events[i], libraries)
    ensures r.Ok? ==> forall l :: l in libraries ==> LibraryPath(libraryDir, l) in h.files
    ensures (forall l :: l in libraries ==> respond(l.downloads.artifact.url).status == 200) ==> r.Ok?
    ensures r.Err? ==> FailedFetch(libraryDir, libraries, respond, old(h.files), r.error)
    ensures |Requests(h.events)| <= |Requests(old(h.events))| + |Missing(libraryDir, libraries, old(h.files))|
    ensures |h.events| <= |old(h.events)| + 2 * |Missing(libraryDir, libraries, old(h.files))|
  {
    var remaining := libraries;
    var failure: Option<Throwable> := None;
    ghost var requested: set<Library> := {};
    while remaining != {}
      invariant remaining <= libraries
      invariant FetchedSoFar(libraryDir, libraries, respond, old(h.files), old(h.events), h.files, h.events,
        libraries - remaining, failure)
      invariant requested <= libraries - remaining
      invariant forall l :: l in requested ==> LibraryPath(libraryDir, l) !in old(h.files)
      invariant |h.events| == |old(h.events)| + 2 * |requested|
      invariant |Requests(h.events)| == |Requests(old(h.events))| + |requested|
      decreases remaining
    {
      var library :| library in remaining;
      var path := LibraryPath(libraryDir, library);
      var url := library.downloads.artifact.url;
      ghost var files, events := h.files, h.events;
      var outcome := Download.File(h, path, url, respond(url));
      FetchStep(libraryDir, libraries, respond, old(h.files), old(h.events), files, events,
        libraries - remaining, failure, library, h.files, h.events, outcome);
      if outcome.Err? && failure.None? {
        failure := Some(outcome.error);
      }
      if path !in files {
        Download.DownloadRequests(events, url);
        assert library !in requested;
        requested := requested + {library};
      }
      assert libraries - (remaining - {library}) == (libraries - remaining) + {library};
      remaining := remaining - {library};
    }
    assert requested <= Missing(libraryDir, libraries, old(h.files));
    SubsetNoLarger(requested, Missing(libraryDir, libraries, old(h.files)));
    r := if failure.None? then Ok(()) else Err(failure.value);
  }

  // ----- Manifests -----

  /**
   * The first stage of `run`: the global manifest, the lookup of both versions, then both version
   * manifests. Both lookups are checked before any version manifest is requested, and a failed
   * request or decode fails the stage. `respond` gives the server's response for a URL.
   */
  method ResolveVersionManifests(h: Host, fromVersion: string, toVersion: string,
      respond: string -> Download.Response,
      decodeGlobal: Bytes -> Result<GlobalManifest, Throwable>, decodeVersion: Bytes -> Result<VersionManifest, Throwable>)
    returns (r: Outcome<Pair<VersionManifest, VersionManifest>>)
    modifies h
    ensures h.files == old(h.files)
    ensures var global := respond(ManifestUrl);
      global.status != 200 || decodeGlobal(global.body).Failure? ==>
        r.Err? && h.events == old(h.events) + Download.Fetch(ManifestUrl)
    ensures var global := respond(ManifestUrl);
      global.status == 200 && decodeGlobal(global.body).Success? ==>
        var lookup := Lookup(decodeGlobal(global.body).value, fromVersion, toVersion);
        && (lookup.Failure? ==> r == Err(Futures.Encoded(lookup.error)) && h.events == old(h.events) + Download.Fetch(ManifestUrl))
        && (lookup.Success? ==>
              var fromResponse := respond(lookup.value.first);
              var toResponse := respond(lookup.value.second);
              && h.events == old(h.events) + Download.Fetch(ManifestUrl) + Download.Fetch(lookup.value.first) + Download.Fetch(lookup.value.second)
              && (r.Ok? <==> fromResponse.status == 200 && decodeVersion(fromResponse.body).Success?
                             && toResponse.status == 200 && decodeVersion(toResponse.body).Success?)
              && (r.Ok? ==> r.value == Pair(decodeVersion(fromResponse.body).value, decodeVersion(toResponse.body).value)))
  {
    var global: Outcome<GlobalManifest> := Download.Json(h, ManifestUrl, respond(ManifestUrl), decodeGlobal);
    if global.Err? {
      return Err(global.error);
    }
    var urls := FindVersionUrls(global.value, fromVersion, toVersion);
    if urls.Failure? {
      return Err(Futures.Encoded(urls.error));
    }
    var fromUrl, toUrl := urls.value.first, urls.value.second;
    var fromManifest: Outcome<VersionManifest> := Download.Json(h, fromUrl, respond(fromUrl), decodeVersion);
    var toManifest: Outcome<VersionManifest> := Download.Json(h, toUrl, respond(toUrl), decodeVersion);
    if fromManifest.Err? {
      return Err(fromManifest.error);
    }
    if toManifest.Err? {
      return Err(toManifest.error);
    }
    r := Ok(Pair(fromManifest.value, toManifest.value));
  }

  // ----- Metadata -----

  /** The message of `get(0)` on an empty list. */
  const EmptyListingMessage: string := "Index 0 out of bounds for length 0"

  /**
   * `resolveMetadata(libraryDir, manifest)`: the first listed mappings release is fetched into
   * the library directory; the game jar is the Minecraft library's path there. There is no
   * fallback: an empty listing is an IndexOutOfBoundsException.
   */
  method ResolveMetadata(h: Host, libraryDir: Path, manifest: VersionManifest,
      respond: string -> Download.Response, decodeListing: Bytes -> Result<seq<YarnVersion>, Throwable>)
    returns (r: Outcome<MinecraftMetadata>)
    modifies h
    ensures old(h.files).Keys <= h.files.Keys
    ensures r.Ok? ==>
      && r.value.id == manifest.id && r.value.manifest == manifest && r.value.mappingsJar in h.files
      && LibraryForMinecraft(manifest).Success?
      && r.value.gameJar == LibraryPath(libraryDir, LibraryForMinecraft(manifest).value)
    ensures var listingUrl := YarnListingUrl + manifest.id;
      var listing := respond(listingUrl);
      listing.status != 200 || decodeListing(listing.body).Failure? ==>
        r.Err? && h.events == old(h.events) + Download.Fetch(listingUrl) && h.files == old(h.files)
    ensures var listingUrl := YarnListingUrl + manifest.id;
      var listing := respond(listingUrl);
      listing.status == 200 && decodeListing(listing.body) == Success([]) ==>
        && r == Err(Futures.Encoded(Raise(IndexOutOfBoundsError, EmptyListingMessage)))
        && h.events == old(h.events) + Download.Fetch(listingUrl) && h.files == old(h.files)
    ensures var listingUrl := YarnListingUrl + manifest.id;
      var listing := respond(listingUrl);
      listing.status == 200 && decodeListing(listing.body).Success? && decodeListing(listing.body).value != [] ==>
        var yarn := YarnCoordinates(decodeListing(listing.body).value[0].version);
        var yarnPath := Resolve(libraryDir, ToUrlPart(yarn));
        var yarnResponse := respond(ToFabricMavenUrl(yarn));
        && (yarnPath in old(h.files) ==> h.events == old(h.events) + Download.Fetch(listingUrl) && h.files == old(h.files))
        && (yarnPath !in old(h.files) ==>
              && h.events == old(h.events) + Download.Fetch(listingUrl) + Download.Fetch(ToFabricMavenUrl(yarn))
              && h.files == if yarnResponse.status == 200 then old(h.files)[yarnPath := yarnResponse.body] else old(h.files))
        && (yarnPath !in old(h.files) && yarnResponse.status != 200 ==>
              r == Err(Futures.Encoded(Download.StatusCodeException(yarnResponse.status))))
        && (yarnPath in old(h.files) || yarnResponse.status == 200 ==>
              && ("client" !in manifest.downloads ==> r == Err(Futures.Encoded(Raise(NullPointerError, MissingClientMessage))))
              && ("client" in manifest.downloads ==>
                    r == Ok(MinecraftMetadata(manifest.id, manifest,
                      Resolve(libraryDir, ToUrlPart(MinecraftCoordinates(manifest.id))), yarnPath))))
  {
    var versions: Outcome<seq<YarnVersion>> := Download.Json(h, YarnListingUrl + manifest.id, respond(YarnListingUrl + manifest.id), decodeListing);
    if versions.Err? {
      return Err(versions.error);
    }
    if |versions.value| == 0 {
      return Err(Futures.Encoded(Raise(IndexOutOfBoundsError, EmptyListingMessage)));
    }
    var version := versions.value[0].version;
    YarnPathIsUrlPart(version);
    var yarnPath := Resolve(libraryDir, YarnPathStr(version));
    var yarnJar := Download.File(h, yarnPath, YarnUrl(version), respond(YarnUrl(version)));
    if yarnJar.Err? {
      return Err(yarnJar.error);
    }
    var minecraft := LibraryForMinecraft(manifest);
    if minecraft.Failure? {
      return Err(Futures.Encoded(minecraft.error));
    }
    var gameJar := Resolve(libraryDir, minecraft.value.downloads.artifact.path);
    r := Ok(MinecraftMetadata(manifest.id, manifest, gameJar, yarnJar.value));
  }

  // ----- Remapping -----

  /** `"%s".formatted(p.getFileName())`: "null" for a root. */
  function FileNameText(p: Path): string {
    match FileNameOf(p)
    case None => "null"
    case Some(f) => ToString(f)
  }

  /** The remapped jar: next to the game jar, named after the version and the mappings jar. */
  function RemappedJarPath(metadata: MinecraftMetadata): Path {
    ResolveSibling(metadata.gameJar, "minecraft-" + metadata.id + "-" + FileNameText(metadata.mappingsJar))
  }

  /** For a plain id, the remapped jar replaces the game jar's file name with "minecraft-<id>-<mappings jar>". */
  lemma RemappedJarNaming(metadata: MinecraftMetadata)
    requires |metadata.gameJar.names| > 0 && |metadata.mappingsJar.names| > 0 && '/' !in metadata.id
    ensures var g := metadata.gameJar;
      RemappedJarPath(metadata) == Path(g.absolute, g.names[..|g.names| - 1]
        + ["minecraft-" + metadata.id + "-" + FileName(metadata.mappingsJar)])
  {
    var file: Name := FileName(metadata.mappingsJar);
    assert FileNameText(metadata.mappingsJar) == file;
    var n: Name := "minecraft-" + metadata.id + "-" + file;
    ResolveSiblingName(metadata.gameJar, n);
  }

  /** The remapper's class path: every library of the version's own manifest, in the library directory. */
  function Classpath(libraryDir: Path, libraries: seq<Library>): (r: seq<Path>)
    ensures |r| == |libraries|
    ensures forall i :: 0 <= i < |r| ==> r[i] == LibraryPath(libraryDir, libraries[i])
  {
    seq(|libraries|, i requires 0 <= i < |libraries| => LibraryPath(libraryDir, libraries[i]))
  }

  /** How `remap` and `run` let a tool's failure escape: an IOException in an UncheckedIOException. */
  function Unchecked(t: Throwable): (r: Throwable)
    ensures IsIOException(t.kind) ==> r.kind == UncheckedIOError && r.cause == Some(t)
    ensures !IsIOException(t.kind) ==> r == t
  {
    if IsIOException(t.kind) then WrapIn(UncheckedIOError, t) else t
  }

  /**
   * `remap(libraryDir, metadata)`: an existing remapped jar is returned with nothing done;
   * otherwise the remapper reads the game jar against the version's own libraries and writes
   * the remapped jar. `remapped` is how the remapper ends: the jar's content, or the exception
   * it throws and whatever its output consumer had already written to the jar by then.
   */
  method Remap(h: Host, libraryDir: Path, metadata: MinecraftMetadata, remapped: ToolRun)
    returns (r: Outcome<Path>)
    modifies h
    ensures old(h.files).Keys <= h.files.Keys
    ensures var out := RemappedJarPath(metadata);
      out in old(h.files) ==> r == Ok(out) && h.files == old(h.files) && h.events == old(h.events)
    ensures var out := RemappedJarPath(metadata);
      out !in old(h.files) ==>
        && h.events == old(h.events) + [
             Stdout(":remapping " + metadata.id + " with " + FileNameText(metadata.mappingsJar)),
             RemapperRun(metadata.gameJar, metadata.mappingsJar, Classpath(libraryDir, metadata.manifest.libraries), out)]
        && match remapped {
             case Wrote(content) => r == Ok(out) && h.files == old(h.files)[out := content]
             case Failed(t, leftover) => r == Err(Unchecked(t)) && h.files == WithLeftover(old(h.files), out, leftover)
           }
  {
    var out := RemappedJarPath(metadata);
    if h.Exists(out) {
      return Ok(out);
    }
    h.Print(":remapping " + metadata.id + " with " + FileNameText(metadata.mappingsJar));
    var classpath := Classpath(libraryDir, metadata.manifest.libraries);
    h.Record(RemapperRun(metadata.gameJar, metadata.mappingsJar, classpath, out));
    match remapped
    case Wrote(content) =>
      h.Write(out, content);
      r := Ok(out);
    case Failed(t, leftover) =>
      if leftover.Some? {
        h.Write(out, leftover.value);
      }
      r := Err(Unchecked(t));
  }

  // ----- Decompiling -----

  /** `p.toAbsolutePath().toString()`. */
  function AbsoluteText(p: Path, cwd: seq<Name>): string {
    ToString(ToAbsolute(p, cwd))
  }

  /**
   * `getSourcePath(gameJar)`: "sources/<file name>" under the output directory; a root has no
   * file name, and resolving null throws.
   */
  function SourcePath(outputPath: Path, gameJar: Path): (r: Result<Path, Throwable>)
    ensures r.Failure? <==> gameJar.absolute && gameJar.names == []
    ensures r.Failure? ==> r.error.kind == NullPointerError
    ensures |gameJar.names| > 0 ==>
      r == Success(Path(outputPath.absolute, outputPath.names + ["sources", FileName(gameJar)]))
  {
    ResolveName(outputPath, "sources");
    match FileNameOf(gameJar)
    case None => Failure(Throwable(NullPointerError, NoMessage, None))
    case Some(f) =>
      assert |gameJar.names| > 0 ==> outputPath.names + ["sources"] + f.names == outputPath.names + ["sources", FileName(gameJar)];
      Success(ResolvePath(Resolve(outputPath, "sources"), f))
  }

  /**
   * The decompiler's arguments: one "-e=<absolute library path>" per library of the version's
   * own manifest, in order, then the game jar, then its source path.
   */
  function DecompilerArguments(libraryDir: Path, gameJar: Path, outputPath: Path, manifest: VersionManifest,
      cwd: seq<Name>): (r: Result<seq<string>, Throwable>)
    ensures r.Failure? <==> SourcePath(outputPath, gameJar).Failure?
    ensures r.Failure? ==> r.error == SourcePath(outputPath, gameJar).error
    ensures r.Success? ==>
      var libs := manifest.libraries;
      && |r.value| == |libs| + 2
      && (forall i :: 0 <= i < |libs| ==> r.value[i] == "-e=" + AbsoluteText(LibraryPath(libraryDir, libs[i]), cwd))
      && r.value[|libs|] == AbsoluteText(gameJar, cwd)
      && r.value[|libs| + 1] == AbsoluteText(SourcePath(outputPath, gameJar).value, cwd)
  {
    var libs := manifest.libraries;
    match SourcePath(outputPath, gameJar)
    case Failure(e) => Failure(e)
    case Success(source) =>
      Success(seq(|libs|, i requires 0 <= i < |libs| => "-e=" + AbsoluteText(LibraryPath(libraryDir, libs[i]), cwd))
        + [AbsoluteText(gameJar, cwd), AbsoluteText(source, cwd)])
  }

  /** The loop of `decompile` that builds the argument list. */
  method DecompileArgs(libraryDir: Path, gameJar: Path, outputPath: Path, manifest: VersionManifest, cwd: seq<Name>)
    returns (r: Result<seq<string>, Throwable>)
    ensures r == DecompilerArguments(libraryDir, gameJar, outputPath, manifest, cwd)
  {
    var args: seq<string> := [];
    var libs := manifest.libraries;
    for i := 0 to |libs|
      invariant |args| == i
      invariant forall j :: 0 <= j < i ==> args[j] == "-e=" + AbsoluteText(LibraryPath(libraryDir, libs[j]), cwd)
    {
      var path := AbsoluteText(LibraryPath(libraryDir, libs[i]), cwd);
      args := args + ["-e=" + path];
    }
    args := args + [AbsoluteText(gameJar, cwd)];
    var source := SourcePath(outputPath, gameJar);
    if source.Failure? {
      return Failure(source.error);
    }
    args := args + [AbsoluteText(source.value, cwd)];
    r := Success(args);
    assert r.value == DecompilerArguments(libraryDir, gameJar, outputPath, manifest, cwd).value;
  }

  /** Every library argument is "-e=" followed by an absolute path. */
  lemma LibraryArgumentIsAbsolute(libraryDir: Path, library: Library, cwd: seq<Name>)
    ensures var arg := "-e=" + AbsoluteText(LibraryPath(libraryDir, library), cwd);
      |arg| > 3 && arg[..3] == "-e=" && arg[3] == '/'
  {
  }

  /** `decompile(libraryDir, gameJar, manifest)`: the arguments are built, the line printed, the decompiler run. */
  method Decompile(h: Host, libraryDir: Path, gameJar: Path, outputPath: Path, manifest: VersionManifest, cwd: seq<Name>)
    returns (r: Outcome<()>)
    modifies h
    ensures h.files == old(h.files)
    ensures SourcePath(outputPath, gameJar).Failure? ==>
      r == Err(SourcePath(outputPath, gameJar).error) && h.events == old(h.events)
    ensures SourcePath(outputPath, gameJar).Success? ==>
      && r == Ok(())
      && h.events == old(h.events) + [Stdout(":decompiling " + manifest.id),
           DecompilerRun(DecompilerArguments(libraryDir, gameJar, outputPath, manifest, cwd).value)]
  {
    var args := DecompileArgs(libraryDir, gameJar, outputPath, manifest, cwd);
    if args.Failure? {
      return Err(args.error);
    }
    h.Print(":decompiling " + manifest.id);
    h.Record(DecompilerRun(args.value));
    r := Ok(());
  }

  // ----- Diff -----

  /** `diffs/<from>-<to>.jar` under the output directory. */
  function DiffJarPath(outputPath: Path, fromVersion: string, toVersion: string): Path {
    Resolve(Resolve(outputPath, "diffs"), fromVersion + "-" + toVersion + ".jar")
  }

  /** `diffs/<from>-<to>` under the output directory. */
  function DiffDirPath(outputPath: Path, fromVersion: string, toVersion: string): Path {
    Resolve(Resolve(outputPath, "diffs"), fromVersion + "-" + toVersion)
  }

  /** For plain version strings, the packaged diff and the unpacked diff are two siblings in "diffs". */
  lemma DiffPathsShape(outputPath: Path, fromVersion: string, toVersion: string)
    requires '/' !in fromVersion && '/' !in toVersion
    ensures DiffJarPath(outputPath, fromVersion, toVersion)
      == Path(outputPath.absolute, outputPath.names + ["diffs", fromVersion + "-" + toVersion + ".jar"])
    ensures DiffDirPath(outputPath, fromVersion, toVersion)
      == Path(outputPath.absolute, outputPath.names + ["diffs", fromVersion + "-" + toVersion])
    ensures DiffJarPath(outputPath, fromVersion, toVersion) != DiffDirPath(outputPath, fromVersion, toVersion)
  {
    var diffs: Name := "diffs";
    var dir: Name := fromVersion + "-" + toVersion;
    var jar: Name := fromVersion + "-" + toVersion + ".jar";
    ResolveName(outputPath, diffs);
    ResolveName(Resolve(outputPath, diffs), dir);
    ResolveName(Resolve(outputPath, diffs), jar);
    var n := |outputPath.names| + 1;
    assert DiffJarPath(outputPath, fromVersion, toVersion).names[n] == jar;
    assert DiffDirPath(outputPath, fromVersion, toVersion).names[n] == dir;
    assert |jar| != |dir|;
  }

  /** An entry of a zip archive. */
  datatype Entry = RegularFile(content: Bytes) | Directory

  /** Where `diff` puts an archive entry: its relative path resolved against the output directory. */
  function Target(dir: Path, key: seq<Name>): Path {
    Resolve(dir, Join(key))
  }

  /** The places under `dir` of the regular files among `keys`. */
  function Targets(archive: map<seq<Name>, Entry>, dir: Path, keys: set<seq<Name>>): set<Path> {
    set k | k in keys && k in archive && archive[k].RegularFile? :: Path(dir.absolute, dir.names + k)
  }

  /** The regular files among `keys`, at their mirrored place under `dir`. */
  function Copied(archive: map<seq<Name>, Entry>, dir: Path, keys: set<seq<Name>>): map<Path, Bytes> {
    map p | p in Targets(archive, dir, keys) :: archive[Relative(dir, p)].content
  }

  /** The part of `p` below `dir`, for a `p` that lies below it. */
  function Relative(dir: Path, p: Path): seq<Name> {
    if |dir.names| <= |p.names| then p.names[|dir.names|..] else []
  }

  /** The mirrored place of a key determines the key. */
  lemma RelativeOfTarget(dir: Path, k: seq<Name>)
    ensures Relative(dir, Path(dir.absolute, dir.names + k)) == k
  {
    assert (dir.names + k)[|dir.names|..] == k;
  }

  /** One more key: the copied files gain that key's file, if it is a regular file. */
  lemma CopiedStep(archive: map<seq<Name>, Entry>, dir: Path, done: set<seq<Name>>, key: seq<Name>)
    requires key in archive && key !in done
    ensures archive[key].RegularFile? ==>
      Copied(archive, dir, done + {key}) == Copied(archive, dir, done)[Path(dir.absolute, dir.names + key) := archive[key].content]
    ensures archive[key].Directory? ==> Copied(archive, dir, done + {key}) == Copied(archive, dir, done)
  {
    RelativeOfTarget(dir, key);
    forall k | k in archive ensures Relative(dir, Path(dir.absolute, dir.names + k)) == k {
      RelativeOfTarget(dir, k);
    }
  }

  /** One unzip step, stated on the host's files: writing the key's file (if any) extends the copy by that key. */
  lemma UnzipStep(files: map<Path, Bytes>, archive: map<seq<Name>, Entry>, dir: Path,
                  done: set<seq<Name>>, key: seq<Name>)
    requires key in archive && key !in done
    ensures archive[key].RegularFile? ==>
      (files + Copied(archive, dir, done))[Target(dir, key) := archive[key].content] ==
        files + Copied(archive, dir, done + {key})
    ensures archive[key].Directory? ==>
      files + Copied(archive, dir, done) == files + Copied(archive, dir, done + {key})
  {
    CopiedStep(archive, dir, done, key);
    ResolveJoin(dir, key);
  }

  /**
   * The unzip loop: every regular file of the archive is copied to its place under `dir`,
   * replacing what was there; directories add nothing and no other file changes.
   */
  method Unzip(h: Host, archive: map<seq<Name>, Entry>, dir: Path)
    modifies h
    ensures h.files == old(h.files) + Copied(archive, dir, archive.Keys)
    ensures h.events == old(h.events)
  {
    var remaining := archive.Keys;
    ghost var done: set<seq<Name>> := {};
    while remaining != {}
      invariant remaining + done == archive.Keys && remaining !! done
      invariant h.files == old(h.files) + Copied(archive, dir, done)
      invariant h.events == old(h.events)
      decreases remaining
    {
      var key :| key in remaining;
      UnzipStep(old(h.files), archive, dir, done, key);
      match archive[key] {
        case RegularFile(content) =>
          h.Write(Target(dir, key), content);
        case Directory =>
      }
      done := done + {key};
      remaining := remaining - {key};
    }
  }

  /**
   * Each regular file of the archive ends up at `dir` resolved with its relative path, with its
   * content; everything copied is such a file, so it lies under `dir`.
   */
  lemma CopiedPlacement(archive: map<seq<Name>, Entry>, dir: Path, key: seq<Name>, p: Path)
    ensures key in archive && archive[key].RegularFile? ==>
      var all := Copied(archive, dir, archive.Keys);
      Target(dir, key) in all && all[Target(dir, key)] == archive[key].content
    ensures p in Copied(archive, dir, archive.Keys) ==>
      var k := Relative(dir, p);
      && k in archive && archive[k].RegularFile? && p == Target(dir, k)
      && p.absolute == dir.absolute && |p.names| >= |dir.names| && p.names[..|dir.names|] == dir.names
  {
    ResolveJoin(dir, key);
    RelativeOfTarget(dir, key);
    if p in Copied(archive, dir, archive.Keys) {
      var k :| k in archive && archive[k].RegularFile? && p == Path(dir.absolute, dir.names + k);
      RelativeOfTarget(dir, k);
      ResolveJoin(dir, k);
    }
  }

  /**
   * How `diff` goes: the diff tool's archive, unpacked in full; the exception the diff tool
   * throws; or the exception opening or walking the archive throws, with the entries copied
   * before it.
   */
  datatype DiffOutcome =
    | Packed(archive: map<seq<Name>, Entry>)
    | DiffFailed(exception: Throwable)
    | UnpackFailed(copied: map<seq<Name>, Entry>, exception: Throwable)

  /**
   * `diff(a, b, outputPath, outputDir)`: the diff tool packs the differences into `outputPath`,
   * then every file of that archive is unpacked under `outputDir`.
   */
  method Diff(h: Host, a: Path, b: Path, outputPath: Path, outputDir: Path, produced: DiffOutcome)
    returns (r: Outcome<()>)
    modifies h
    ensures produced.DiffFailed? ==>
      && r == Err(produced.exception) && h.files == old(h.files)
      && h.events == old(h.events) + [Stdout(":diffing..."), DiffRun(a, b, outputPath)]
    ensures produced.UnpackFailed? ==>
      && r == Err(produced.exception) && h.files == old(h.files) + Copied(produced.copied, outputDir, produced.copied.Keys)
      && h.events == old(h.events) + [Stdout(":diffing..."), DiffRun(a, b, outputPath), Stdout(":unzipping...")]
    ensures produced.Packed? ==>
      && r == Ok(()) && h.files == old(h.files) + Copied(produced.archive, outputDir, produced.archive.Keys)
      && h.events == old(h.events) + [Stdout(":diffing..."), DiffRun(a, b, outputPath), Stdout(":unzipping...")]
  {
    h.Print(":diffing...");
    h.Record(DiffRun(a, b, outputPath));
    if produced.DiffFailed? {
      return Err(produced.exception);
    }
    h.Print(":unzipping...");
    match produced {
      case Packed(archive) =>
        Unzip(h, archive, outputDir);
        r := Ok(());
      case UnpackFailed(copied, t) =>
        Unzip(h, copied, outputDir);
        r := Err(t);
    }
  }

  // ----- The whole run -----

  /**
   * The part of `run()` that ends in `join()` on the metadata: both manifests, the library
   * downloads and both versions' metadata. A lookup failure, and in particular comparing a
   * version with itself, ends it after the global manifest.
   */
  method ResolveBoth(h: Host, fromVersion: string, toVersion: string, libraryDir: Path,
      respond: string -> Download.Response,
      decodeGlobal: Bytes -> Result<GlobalManifest, Throwable>,
      decodeVersion: Bytes -> Result<VersionManifest, Throwable>,
      decodeListing: Bytes -> Result<seq<YarnVersion>, Throwable>)
    returns (r: Outcome<Pair<MinecraftMetadata, MinecraftMetadata>>)
    modifies h
    ensures old(h.files).Keys <= h.files.Keys
    ensures r.Ok? ==>
      && r.value.first.gameJar in h.files && r.value.first.mappingsJar in h.files
      && r.value.second.gameJar in h.files && r.value.second.mappingsJar in h.files
    ensures r.Ok? ==> forall l :: l in r.value.first.manifest.libraries || l in r.value.second.manifest.libraries ==>
      LibraryPath(libraryDir, l) in h.files
    ensures var global := respond(ManifestUrl);
      global.status == 200 && decodeGlobal(global.body).Success?
        && Lookup(decodeGlobal(global.body).value, fromVersion, toVersion).Failure? ==>
        && r == Err(Futures.Encoded(Lookup(decodeGlobal(global.body).value, fromVersion, toVersion).error))
        && h.events == old(h.events) + Download.Fetch(ManifestUrl) && h.files == old(h.files)
    ensures fromVersion == toVersion ==> r.Err? && h.events == old(h.events) + Download.Fetch(ManifestUrl) && h.files == old(h.files)
  {
    var manifests := ResolveVersionManifests(h, fromVersion, toVersion, respond, decodeGlobal, decodeVersion);
    if fromVersion == toVersion {
      var global := respond(ManifestUrl);
      if global.status == 200 && decodeGlobal(global.body).Success? {
        SameVersionNeverFound(decodeGlobal(global.body).value, fromVersion);
      }
    }
    if manifests.Err? {
      return Err(manifests.error);
    }
    var fromManifest, toManifest := manifests.value.first, manifests.value.second;
    var fromLibrary := LibraryForMinecraft(fromManifest);
    if fromLibrary.Failure? {
      return Err(Futures.Encoded(fromLibrary.error));
    }
    var toLibrary := LibraryForMinecraft(toManifest);
    if toLibrary.Failure? {
      return Err(Futures.Encoded(toLibrary.error));
    }
    var libraries := CollectLibraries(fromManifest, toManifest, fromLibrary.value, toLibrary.value);
    var downloaded := DownloadLibraries(h, libraryDir, libraries, respond);
    if downloaded.Err? {
      return Err(downloaded.error);
    }
    var fromMetadata := ResolveMetadata(h, libraryDir, fromManifest, respond, decodeListing);
    var toMetadata := ResolveMetadata(h, libraryDir, toManifest, respond, decodeListing);
    if fromMetadata.Err? {
      return Err(fromMetadata.error);
    }
    if toMetadata.Err? {
      return Err(toMetadata.error);
    }
    r := Ok(Pair(fromMetadata.value, toMetadata.value));
  }

  /**
   * The rest of `run()`: both remapped jars, both decompilations, then the diff of the two
   * source trees, unpacked into `diffs/<from>-<to>`.
   */
  method CompareVersions(h: Host, fromVersion: string, toVersion: string, outputPath: Path, libraryDir: Path,
      cwd: seq<Name>, metadata: Pair<MinecraftMetadata, MinecraftMetadata>,
      remapped: Pair<ToolRun, ToolRun>,
      produced: DiffOutcome)
    returns (r: Outcome<()>)
    modifies h
    ensures old(h.files).Keys <= h.files.Keys
    ensures r.Ok? ==> produced.Packed?
    ensures r.Ok? ==>
      var copied := Copied(produced.archive, DiffDirPath(outputPath, fromVersion, toVersion), produced.archive.Keys);
      forall p :: p in copied ==> p in h.files && h.files[p] == copied[p]
  {
    var fromJar := Remap(h, libraryDir, metadata.first, remapped.first);
    var toJar := Remap(h, libraryDir, metadata.second, remapped.second);
    if fromJar.Err? {
      return Err(Futures.Encoded(fromJar.error));
    }
    if toJar.Err? {
      return Err(Futures.Encoded(toJar.error));
    }
    var decompiledFrom := Decompile(h, libraryDir, fromJar.value, outputPath, metadata.first.manifest, cwd);
    if decompiledFrom.Err? {
      return Err(decompiledFrom.error);
    }
    var decompiledTo := Decompile(h, libraryDir, toJar.value, outputPath, metadata.second.manifest, cwd);
    if decompiledTo.Err? {
      return Err(decompiledTo.error);
    }
    var sourceA, sourceB := SourcePath(outputPath, fromJar.value), SourcePath(outputPath, toJar.value);
    var diffJar, diffDir := DiffJarPath(outputPath, fromVersion, toVersion), DiffDirPath(outputPath, fromVersion, toVersion);
    var diffed := Diff(h, sourceA.value, sourceB.value, diffJar, diffDir, produced);
    if diffed.Err? {
      return Err(Unchecked(diffed.error));
    }
    r := Ok(());
  }

  /**
   * `run()` with `outputPath`: `respond` answers every HTTP request; `remapped` is what the
   * remapper produces for the 'from' and the 'to' version; `produced` is how `diff` goes.
   */
  method Run(h: Host, fromVersion: string, toVersion: string, outputPath: Path, cwd: seq<Name>,
      respond: string -> Download.Response,
      decodeGlobal: Bytes -> Result<GlobalManifest, Throwable>,
      decodeVersion: Bytes -> Result<VersionManifest, Throwable>,
      decodeListing: Bytes -> Result<seq<YarnVersion>, Throwable>,
      remapped: Pair<ToolRun, ToolRun>,
      produced: DiffOutcome)
    returns (r: Outcome<()>)
    modifies h
    ensures old(h.files).Keys <= h.files.Keys
    ensures fromVersion == toVersion ==> r.Err? && h.events == old(h.events) + Download.Fetch(ManifestUrl) && h.files == old(h.files)
    ensures r.Ok? ==> produced.Packed?
    ensures r.Ok? ==>
      var copied := Copied(produced.archive, DiffDirPath(outputPath, fromVersion, toVersion), produced.archive.Keys);
      forall p :: p in copied ==> p in h.files && h.files[p] == copied[p]
  {
    var libraryDir := Resolve(outputPath, "libraries");
    var metadata := ResolveBoth(h, fromVersion, toVersion, libraryDir, respond, decodeGlobal, decodeVersion, decodeListing);
    if metadata.Err? {
      return Err(metadata.error);
    }
    r := CompareVersions(h, fromVersion, toVersion, outputPath, libraryDir, cwd, metadata.value, remapped, produced);
  }
}

