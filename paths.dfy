/**
 * The part of `java.nio.file.Path` (Unix provider) that the pipeline relies on:
 * parsing a string into name elements, `resolve`, `resolveSibling`, `getParent`,
 * `getFileName`, `toAbsolutePath` and `toString`.
 */
module Paths {
  import opened Common

  /** One name element of a path: never empty, never containing the separator. */
  type Name = s: string | s != [] && '/' !in s witness "x"

  /** A normalised path: whether it starts at the root, and its name elements. */
  datatype Path = Path(absolute: bool, names: seq<Name>)

  /** Index of the first '/' in `s`, or `|s|` when there is none. */
  function FirstSlash(s: string): (k: nat)
    ensures k <= |s|
    ensures forall j :: 0 <= j < k ==> s[j] != '/'
    ensures k < |s| ==> s[k] == '/'
  {
    if s == [] || s[0] == '/' then 0 else 1 + FirstSlash(s[1..])
  }

  /** The name elements of a path string: split on '/', empty elements dropped (as the Unix parser does). */
  function Segments(s: string): seq<Name>
    decreases |s|
  {
    if s == [] then []
    else if s[0] == '/' then Segments(s[1..])
    else
      var k := FirstSlash(s);
      assert k >= 1 && '/' !in s[..k];
      [s[..k]] + Segments(s[k..])
  }

  /** `Path.of(s)`. */
  function Parse(s: string): Path {
    Path(|s| > 0 && s[0] == '/', Segments(s))
  }

  /** `p.resolve(s)`: an absolute `s` replaces `p`, otherwise its elements are appended. */
  function Resolve(p: Path, s: string): (r: Path)
    ensures (|s| > 0 && s[0] == '/') || r.names == p.names + Segments(s)
  {
    if |s| > 0 && s[0] == '/' then Parse(s) else Path(p.absolute, p.names + Segments(s))
  }

  /** `p.getParent()`: absent for a path with no elements and for a relative path of one element. */
  function Parent(p: Path): Option<Path> {
    if |p.names| == 0 || (!p.absolute && |p.names| == 1) then None
    else Some(Path(p.absolute, p.names[..|p.names| - 1]))
  }

  /** `p.resolveSibling(s)`: `s` parsed alone when `p` has no parent, otherwise resolved against the parent. */
  function ResolveSibling(p: Path, s: string): Path {
    match Parent(p)
    case None => Parse(s)
    case Some(q) => Resolve(q, s)
  }

  /** `p.getFileName()` of a path that has at least one element. */
  function FileName(p: Path): Name
    requires |p.names| > 0
  {
    p.names[|p.names| - 1]
  }

  /** `p.getFileName()`: the last element; a root has none (null), and the empty path is its own file name. */
  function FileNameOf(p: Path): Option<Path> {
    if |p.names| > 0 then Some(Path(false, [FileName(p)]))
    else if p.absolute then None
    else Some(p)
  }

  /** `p.resolve(q)` for a path `q`: an absolute `q` replaces `p`, otherwise its elements are appended. */
  function ResolvePath(p: Path, q: Path): Path {
    if q.absolute then q else Path(p.absolute, p.names + q.names)
  }

  /** `p.toAbsolutePath()`, with the working directory given as its name elements. */
  function ToAbsolute(p: Path, cwd: seq<Name>): (r: Path)
    ensures r.absolute
  {
    if p.absolute then p else Path(true, cwd + p.names)
  }

  /** The elements joined with '/'. */
  function Join(names: seq<Name>): string {
    if names == [] then ""
    else if |names| == 1 then names[0]
    else names[0] + "/" + Join(names[1..])
  }

  /** `p.toString()`. */
  function ToString(p: Path): string {
    (if p.absolute then "/" else "") + Join(p.names)
  }

  /** The first '/' of a string is determined by its two defining properties. */
  lemma {:induction false} FirstSlashUnique(s: string, k: nat)
    requires k <= |s|
    requires forall j :: 0 <= j < k ==> s[j] != '/'
    requires k < |s| ==> s[k] == '/'
    ensures FirstSlash(s) == k
    decreases |s|
  {
    if s != [] && s[0] != '/' {
      assert k > 0;
      FirstSlashUnique(s[1..], k - 1);
    }
  }

  /** A single name is parsed back to itself. */
  lemma {:induction false} SegmentsOfName(n: Name)
    ensures Segments(n) == [n]
  {
    FirstSlashUnique(n, |n|);
    assert n[0] != '/' by { assert n[0] in n; }
    assert n[..|n|] == n && n[|n|..] == [];
  }

  /** Parsing distributes over a separator: the elements of `a/b` are those of `a` followed by those of `b`. */
  lemma {:induction false} SegmentsSlash(a: string, b: string)
    ensures Segments(a + "/" + b) == Segments(a) + Segments(b)
    decreases |a|
  {
    var s := a + "/" + b;
    if a == [] {
      assert s == "/" + b;
      assert s[1..] == b;
    } else if a[0] == '/' {
      assert s[0] == '/' && s[1..] == a[1..] + "/" + b;
      SegmentsSlash(a[1..], b);
      assert Segments(s) == Segments(s[1..]);
    } else {
      var k := FirstSlash(a);
      assert s[0] == a[0];
      assert forall j :: 0 <= j <= k ==> s[j] == if j < |a| then a[j] else '/';
      FirstSlashUnique(s, k);
      assert s[..k] == a[..k];
      assert s[k..] == a[k..] + "/" + b;
      SegmentsSlash(a[k..], b);
      assert Segments(s) == [s[..k]] + Segments(s[k..]);
      assert Segments(a) == [a[..k]] + Segments(a[k..]);
    }
  }

  /** Joining names and parsing the result gives the names back. */
  lemma {:induction false} SegmentsJoin(names: seq<Name>)
    ensures Segments(Join(names)) == names
  {
    if names == [] {
    } else if |names| == 1 {
      SegmentsOfName(names[0]);
    } else {
      SegmentsSlash(names[0], Join(names[1..]));
      SegmentsOfName(names[0]);
      SegmentsJoin(names[1..]);
    }
  }

  /** Resolving a single name appends exactly that element. */
  lemma ResolveName(p: Path, n: Name)
    ensures Resolve(p, n) == Path(p.absolute, p.names + [n])
  {
    SegmentsOfName(n);
  }

  /** Resolving a single name against the sibling position replaces the last element. */
  lemma ResolveSiblingName(p: Path, n: Name)
    requires |p.names| > 0
    ensures ResolveSibling(p, n).names == p.names[..|p.names| - 1] + [n]
    ensures ResolveSibling(p, n).absolute == p.absolute
    ensures FileName(ResolveSibling(p, n)) == n
  {
    SegmentsOfName(n);
  }

  /** A joined relative path string never starts with the separator. */
  lemma {:induction false} JoinIsRelative(names: seq<Name>)
    ensures |Join(names)| == 0 <==> names == []
    ensures |Join(names)| > 0 ==> Join(names)[0] == names[0][0] && Join(names)[0] != '/'
  {
    if names != [] {
      assert names[0][0] in names[0];
    }
  }

  /** Joining a leading element onto a non-empty rest puts one separator between them. */
  lemma {:induction false} JoinCons(n: Name, rest: seq<Name>)
    requires rest != []
    ensures Join([n] + rest) == n + "/" + Join(rest)
  {
    assert ([n] + rest)[1..] == rest;
  }

  /** Five elements joined. */
  lemma JoinFive(a: Name, b: Name, c: Name, d: Name, e: Name)
    ensures Join([a, b, c, d, e]) == a + "/" + b + "/" + c + "/" + d + "/" + e
  {
    JoinCons(d, [e]);
    JoinCons(c, [d, e]);
    JoinCons(b, [c, d, e]);
    JoinCons(a, [b, c, d, e]);
    assert [d] + [e] == [d, e];
    assert [c] + [d, e] == [c, d, e];
    assert [b] + [c, d, e] == [b, c, d, e];
    assert [a] + [b, c, d, e] == [a, b, c, d, e];
  }

  /** Resolving a joined relative path appends exactly its elements. */
  lemma {:induction false} ResolveJoin(p: Path, names: seq<Name>)
    ensures Resolve(p, Join(names)) == Path(p.absolute, p.names + names)
  {
    JoinIsRelative(names);
    SegmentsJoin(names);
  }
}
