/**
 * Maven coordinates of a dependency and their location in the Maven repository layout:
 * `<group with dots as slashes>/<name>/<version>/<name>-<version>[-<classifier>].jar`.
 */
module Coordinates {
  import opened Common
  import opened Paths

  const FabricMaven: string := "https://maven.fabricmc.net/"

  datatype DependencyCoordinates = DependencyCoordinates(
    group: string,
    name: string,
    version: string,
    classifier: Option<string>)

  /** The three-argument constructor: no classifier. */
  function WithoutClassifier(group: string, name: string, version: string): (c: DependencyCoordinates)
    ensures c.classifier.None?
    ensures c.group == group && c.name == name && c.version == version
  {
    DependencyCoordinates(group, name, version, None)
  }

  /** `s.replace(from, to)` for single characters. */
  function Replace(s: string, from: char, to: char): (r: string)
    ensures |r| == |s|
    ensures forall i :: 0 <= i < |s| ==> r[i] == if s[i] == from then to else s[i]
  {
    seq(|s|, i requires 0 <= i < |s| => if s[i] == from then to else s[i])
  }

  /** A string without a '.' is left as it is. */
  lemma ReplaceNoDot(s: string)
    requires '.' !in s
    ensures Replace(s, '.', '/') == s
  {
    forall i | 0 <= i < |s| ensures s[i] != '.' { assert s[i] in s; }
  }

  /** Replacement works piecewise on a concatenation. */
  lemma ReplaceAppend(a: string, b: string)
    ensures Replace(a + b, '.', '/') == Replace(a, '.', '/') + Replace(b, '.', '/')
  {
  }

  /** The classifier segment that `toUrlPart` appends before the extension. */
  function ClassifierSuffix(classifier: Option<string>): string {
    match classifier
    case None => ""
    case Some(x) => "-" + x
  }

  /** `toUrlPart()`: the artifact's path relative to a Maven repository root. */
  function ToUrlPart(c: DependencyCoordinates): (r: string)
    ensures |r| >= 4 && r[|r| - 4..] == ".jar"
    ensures |r| > |c.group| && r[|c.group|] == '/'
    ensures forall i :: 0 <= i < |c.group| ==> r[i] != '.'
  {
    var r := Replace(c.group, '.', '/') + "/" + c.name + "/" + c.version + "/"
      + c.name + "-" + c.version + ClassifierSuffix(c.classifier) + ".jar";
    assert r[..|c.group|] == Replace(c.group, '.', '/');
    r
  }

  /** `toFabricMavenUrl()`: the artifact's URL on the Fabric Maven repository. */
  function ToFabricMavenUrl(c: DependencyCoordinates): (r: string)
    ensures |r| == |FabricMaven| + |ToUrlPart(c)|
    ensures r[..|FabricMaven|] == FabricMaven && r[|FabricMaven|..] == ToUrlPart(c)
  {
    FabricMaven + ToUrlPart(c)
  }

  /** Coordinates built by the three-argument constructor name a file with no classifier segment. */
  lemma UnclassifiedFileName(group: string, name: string, version: string)
    ensures var r := ToUrlPart(WithoutClassifier(group, name, version));
      var file := name + "-" + version + ".jar";
      |r| > |file| && r[|r| - |file| - 1..] == "/" + file
  {
    var r := ToUrlPart(WithoutClassifier(group, name, version));
    var file := name + "-" + version + ".jar";
    assert r == (Replace(group, '.', '/') + "/" + name + "/" + version) + "/" + file;
  }

  /** A classifier is inserted just before ".jar" of the unclassified path. */
  lemma ClassifierInsertion(c: DependencyCoordinates, classifier: string)
    ensures var base := ToUrlPart(c.(classifier := None));
      ToUrlPart(c.(classifier := Some(classifier))) == base[..|base| - 4] + "-" + classifier + ".jar"
  {
    var base := ToUrlPart(c.(classifier := None));
    var stem := Replace(c.group, '.', '/') + "/" + c.name + "/" + c.version + "/" + c.name + "-" + c.version;
    assert base == stem + ".jar";
    assert base[..|base| - 4] == stem;
  }

  /** Splitting at the last separator: the part after it is determined when it contains no '/'. */
  lemma SplitAtLastSlash(a: string, b: string, c: string, d: string)
    requires '/' !in b && '/' !in d
    requires a + "/" + b == c + "/" + d
    ensures a == c && b == d
  {
    var s := a + "/" + b;
    assert s[|a|] == '/' && s[|c|] == '/';
    assert |b| == |d|;
    assert a == s[..|a|] && c == s[..|c|];
    assert b == s[|a| + 1..] && d == s[|c| + 1..];
  }

  /** Replacing '.' by '/' loses nothing on a string that has no '/' to begin with. */
  lemma ReplaceInjective(s: string, t: string)
    requires '/' !in s && '/' !in t
    requires Replace(s, '.', '/') == Replace(t, '.', '/')
    ensures s == t
  {
    forall i | 0 <= i < |s| ensures s[i] == t[i] {
      assert s[i] in s && t[i] in t;
    }
  }

  /** No field contains the separator. */
  predicate SlashFree(c: DependencyCoordinates) {
    && '/' !in c.group && '/' !in c.name && '/' !in c.version
    && (c.classifier.Some? ==> '/' !in c.classifier.value)
  }

  /** The last element of the repository path: `<name>-<version>[-<classifier>].jar`. */
  function ArtifactFileName(c: DependencyCoordinates): string {
    c.name + "-" + c.version + ClassifierSuffix(c.classifier) + ".jar"
  }

  /** The repository path is the group directory, the name, the version and the file name, '/'-separated. */
  lemma UrlPartShape(c: DependencyCoordinates)
    ensures ToUrlPart(c) == ((Replace(c.group, '.', '/') + "/" + c.name) + "/" + c.version) + "/" + ArtifactFileName(c)
    ensures SlashFree(c) ==> '/' !in ArtifactFileName(c)
  {
    if SlashFree(c) && c.classifier.Some? {
      assert ArtifactFileName(c) == c.name + "-" + c.version + "-" + c.classifier.value + ".jar";
    }
  }

  /**
   * Parsed as a path, the repository path is the group's directories, then the name, the
   * version and the file name, one element each.
   */
  lemma UrlPartElements(c: DependencyCoordinates)
    requires SlashFree(c) && c.name != [] && c.version != []
    ensures Segments(ToUrlPart(c)) == Segments(Replace(c.group, '.', '/')) + [c.name, c.version, ArtifactFileName(c)]
  {
    UrlPartShape(c);
    var g := Replace(c.group, '.', '/');
    var file := ArtifactFileName(c);
    assert file != [] by { assert file[|file| - 4..] == ".jar"; }
    SegmentsSlash((g + "/" + c.name) + "/" + c.version, file);
    SegmentsSlash(g + "/" + c.name, c.version);
    SegmentsSlash(g, c.name);
    SegmentsOfName(c.name);
    SegmentsOfName(c.version);
    SegmentsOfName(file);
  }

  /** With name and version fixed, the file name determines the classifier. */
  lemma ArtifactFileNameInjective(c1: DependencyCoordinates, c2: DependencyCoordinates)
    requires c1.name == c2.name && c1.version == c2.version
    requires ArtifactFileName(c1) == ArtifactFileName(c2)
    ensures c1.classifier == c2.classifier
  {
    var p := c1.name + "-" + c1.version;
    var t1, t2 := ClassifierSuffix(c1.classifier) + ".jar", ClassifierSuffix(c2.classifier) + ".jar";
    assert ArtifactFileName(c1) == p + t1 && ArtifactFileName(c2) == p + t2;
    assert t1 == ArtifactFileName(c1)[|p|..] && t2 == ArtifactFileName(c2)[|p|..];
    match (c1.classifier, c2.classifier)
    case (Some(x1), Some(x2)) =>
      assert x1 == t1[1..|t1| - 4] && x2 == t2[1..|t2| - 4];
    case _ =>
  }

  /** The repository path identifies the coordinates when no field contains '/'. */
  lemma ToUrlPartInjective(c1: DependencyCoordinates, c2: DependencyCoordinates)
    requires SlashFree(c1) && SlashFree(c2)
    requires ToUrlPart(c1) == ToUrlPart(c2)
    ensures c1 == c2
  {
    UrlPartShape(c1);
    UrlPartShape(c2);
    var g1, g2 := Replace(c1.group, '.', '/'), Replace(c2.group, '.', '/');
    SplitAtLastSlash(g1 + "/" + c1.name + "/" + c1.version, ArtifactFileName(c1),
                     g2 + "/" + c2.name + "/" + c2.version, ArtifactFileName(c2));
    SplitAtLastSlash(g1 + "/" + c1.name, c1.version, g2 + "/" + c2.name, c2.version);
    SplitAtLastSlash(g1, c1.name, g2, c2.name);
    ReplaceInjective(c1.group, c2.group);
    ArtifactFileNameInjective(c1, c2);
  }

  /** Without that restriction the path is not injective: a '.' and a '/' in the group collide. */
  lemma DotAndSlashGroupsCollide()
    ensures var a := WithoutClassifier("a.b", "lib", "1");
      var b := WithoutClassifier("a/b", "lib", "1");
      a != b && ToUrlPart(a) == ToUrlPart(b)
  {
    assert Replace("a.b", '.', '/') == "a/b";
    assert Replace("a/b", '.', '/') == "a/b";
  }
}
