/** The JSON records the pipeline reads, and the resolved bundle it builds per version. */
module Data {
  import opened Paths

  /** An entry of the global version manifest. */
  datatype GlobalVersion = GlobalVersion(id: string, url: string)

  datatype GlobalManifest = GlobalManifest(versions: seq<GlobalVersion>)

  /** A downloadable file of a version, keyed by name ("client", ...) in the version manifest. */
  datatype VersionDownload = VersionDownload(url: string)

  /** Where a library's jar lives: a path relative to the library directory, and its URL. */
  datatype Artifact = Artifact(path: string, url: string)

  datatype LibraryDownloads = LibraryDownloads(artifact: Artifact)

  /** A library of a version; two libraries are the same download exactly when the records are equal. */
  datatype Library = Library(name: string, downloads: LibraryDownloads)

  datatype VersionManifest = VersionManifest(
    id: string,
    downloads: map<string, VersionDownload>,
    libraries: seq<Library>)

  /** A version resolved for the later stages: its manifest, its game jar and its mappings jar. */
  datatype MinecraftMetadata = MinecraftMetadata(id: string, manifest: VersionManifest, gameJar: Path, mappingsJar: Path)

  /** An entry of the mappings release listing; only its version string is read. */
  datatype YarnVersion = YarnVersion(version: string)
}
