/**
 * Path canonicalisation of the loop guard
 * (action_trajectory_loop_guard/src/action_trajectory_loop_guard/detector.py,
 * `_canonical_path`) on text: backslashes become slashes, then the text goes
 * through `PurePosixPath(...).as_posix()`.
 */
module CanonicalPath {
  import opened Text

  /** The root that a POSIX path keeps: exactly two leading slashes stay two. */
  function Root(t: string): string {
    if |t| == 0 || t[0] != '/' then ""
    else if |t| == 1 || t[1] != '/' then "/"
    else if |t| > 2 && t[2] == '/' then "/"
    else "//"
  }

  lemma RootIsPrefix(t: string)
    ensures |Root(t)| <= |t| && Root(t) == t[..|Root(t)|]
  {
  }

  predicate Kept(part: string) {
    part != "" && part != "."
  }

  predicate Clean(parts: seq<string>) {
    AllFree(parts, '/') && forall i :: 0 <= i < |parts| ==> Kept(parts[i])
  }

  function Components(parts: seq<string>): (r: seq<string>)
    requires AllFree(parts, '/')
    ensures Clean(r)
    ensures forall p :: p in r ==> p in parts
  {
    if parts == [] then []
    else (if Kept(parts[0]) then [parts[0]] else []) + Components(parts[1..])
  }

  function Format(root: string, parts: seq<string>): string {
    if parts == [] then (if root == "" then "." else root) else root + Join(parts, '/')
  }

  /** `PurePosixPath(t).as_posix()`. */
  function AsPosix(t: string): string {
    RootIsPrefix(t);
    var root := Root(t);
    Format(root, Components(Split(t[|root|..], '/')))
  }

  function StripDotSlash(t: string): string {
    if |t| >= 2 && t[..2] == "./" then StripDotSlash(t[2..]) else t
  }

  /** `_canonical_path` of a text that `str(value or ".")` produced. */
  function Canonical(t: string): string {
    var stripped := StripDotSlash(AsPosix(Replace(t, '\\', "/")));
    if stripped == "" then "." else stripped
  }

  /** The same computation with the source's loop. */
  method CanonicalLoop(t: string) returns (normalized: string)
    ensures normalized == Canonical(t)
  {
    normalized := AsPosix(Replace(t, '\\', "/"));
    while |normalized| >= 2 && normalized[..2] == "./"
      invariant StripDotSlash(normalized) == StripDotSlash(AsPosix(Replace(t, '\\', "/")))
    {
      normalized := normalized[2..];
    }
    if normalized == "" {
      normalized := ".";
    }
  }

  lemma {:induction false} ComponentsOfClean(parts: seq<string>)
    requires Clean(parts)
    ensures Components(parts) == parts
  {
    if parts != [] {
      assert Clean(parts[1..]);
      ComponentsOfClean(parts[1..]);
      assert Kept(parts[0]);
    }
  }

  predicate IsRoot(root: string) {
    root == "" || root == "/" || root == "//"
  }

  /** Joined components start with neither a slash nor "./". */
  lemma JoinStarts(parts: seq<string>)
    requires Clean(parts) && parts != []
    ensures var j := Join(parts, '/'); |j| > 0 && j[0] != '/' && (|j| >= 2 ==> j[..2] != "./")
  {
    assert Kept(parts[0]) && Free(parts[0], '/');
    assert parts[0][0] in parts[0];
    var j := Join(parts, '/');
    assert j[0] == parts[0][0];
    if |parts[0]| == 1 {
      assert parts[0] == [j[0]];
    } else {
      assert parts[0][1] in parts[0];
      assert j[1] == parts[0][1];
    }
  }

  /** A formatted path splits back into its root and components. */
  lemma AsPosixOfFormat(root: string, parts: seq<string>)
    requires IsRoot(root) && Clean(parts)
    ensures AsPosix(Format(root, parts)) == Format(root, parts)
  {
    var t := Format(root, parts);
    if parts == [] {
      if root == "" {
        assert t == ".";
        SplitFree(".", '/');
        assert t[0..] == t;
        assert Components(["."]) == [];
      } else {
        assert Root(t) == root;
        assert t[|root|..] == "";
        assert Components([""]) == [];
      }
    } else {
      var j := Join(parts, '/');
      JoinStarts(parts);
      assert t[|root|..] == j;
      assert Root(t) == root;
      SplitJoin(parts, '/');
      ComponentsOfClean(parts);
    }
  }

  lemma FormatHasNoDotSlash(root: string, parts: seq<string>)
    requires IsRoot(root) && Clean(parts)
    ensures StripDotSlash(Format(root, parts)) == Format(root, parts) != ""
  {
    var t := Format(root, parts);
    if root != "" {
      assert t[0] == '/';
      if |t| >= 2 {
        assert t[..2][0] == '/';
      }
    } else if parts != [] {
      JoinStarts(parts);
      assert t == Join(parts, '/');
    }
  }

  lemma FormatKeepsFree(root: string, parts: seq<string>)
    requires IsRoot(root) && Clean(parts) && AllFree(parts, '\\')
    ensures '\\' !in Format(root, parts)
  {
    if parts != [] {
      JoinKeepsFree(parts, '/', '\\');
    }
  }

  /** The loop that strips "./" never runs: `as_posix` already removed it. */
  lemma CanonicalIsFormatted(t: string) returns (root: string, parts: seq<string>)
    ensures IsRoot(root) && Clean(parts) && AllFree(parts, '\\')
    ensures Canonical(t) == Format(root, parts)
  {
    var u := Replace(t, '\\', "/");
    RootIsPrefix(u);
    root := Root(u);
    var tail := u[|root|..];
    assert '\\' !in u;
    SplitKeepsFree(tail, '/', '\\');
    parts := Components(Split(tail, '/'));
    forall i | 0 <= i < |parts|
      ensures Free(parts[i], '\\')
    {
      assert parts[i] in parts;
    }
    FormatHasNoDotSlash(root, parts);
  }

  lemma CanonicalIdempotent(t: string)
    ensures Canonical(Canonical(t)) == Canonical(t)
    ensures Canonical(t) != ""
  {
    var root, parts := CanonicalIsFormatted(t);
    FormatKeepsFree(root, parts);
    FormatHasNoDotSlash(root, parts);
    ReplaceAbsent(Format(root, parts), '\\', "/");
    AsPosixOfFormat(root, parts);
  }

  /** A canonical path without backslashes is left alone. */
  lemma FormattedIsFixed(root: string, parts: seq<string>)
    requires IsRoot(root) && Clean(parts) && AllFree(parts, '\\')
    ensures Canonical(Format(root, parts)) == Format(root, parts)
  {
    FormatKeepsFree(root, parts);
    FormatHasNoDotSlash(root, parts);
    ReplaceAbsent(Format(root, parts), '\\', "/");
    AsPosixOfFormat(root, parts);
  }

  lemma {:induction false} ComponentsSkip(a: seq<string>, part: string, b: seq<string>)
    requires AllFree(a + [part] + b, '/') && AllFree(a + b, '/') && !Kept(part)
    ensures Components(a + [part] + b) == Components(a + b)
  {
    if a == [] {
      assert ([] + [part] + b)[1..] == b && [] + b == b;
    } else {
      var all := a + [part] + b;
      assert all[1..] == a[1..] + [part] + b && (a + b)[1..] == a[1..] + b;
      forall i | 0 <= i < |all[1..]|
        ensures Free(all[1..][i], '/')
      {
        assert all[1..][i] == all[i + 1];
      }
      ComponentsSkip(a[1..], part, b);
    }
  }

  lemma RootOfJoin(root: string, parts: seq<string>)
    requires IsRoot(root) && parts != [] && AllFree(parts, '/') && parts[0] != ""
    ensures var t := root + Join(parts, '/'); Root(t) == root && t[|root|..] == Join(parts, '/')
  {
    var j := Join(parts, '/');
    assert Free(parts[0], '/') && parts[0][0] in parts[0];
    assert j[0] == parts[0][0] != '/';
    var t := root + j;
    assert t[|root|..] == j && t[|root|] == j[0];
  }

  /** Empty and dot components behind the first one do not count. */
  lemma SkippedComponents(root: string, a: seq<string>, part: string, b: seq<string>)
    requires IsRoot(root) && a != [] && a[0] != "" && AllFree(a + [part] + b, '/') && AllFree(a + [part] + b, '\\')
    requires part == "" || part == "."
    ensures Canonical(root + Join(a + [part] + b, '/')) == Canonical(root + Join(a + b, '/'))
  {
    var all, fewer := a + [part] + b, a + b;
    forall i | 0 <= i < |fewer|
      ensures Free(fewer[i], '/') && Free(fewer[i], '\\')
    {
      assert fewer[i] == all[if i < |a| then i else i + 1];
    }
    AsPosixOfJoin(root, all);
    AsPosixOfJoin(root, fewer);
    ComponentsSkip(a, part, b);
  }

  lemma AsPosixOfJoin(root: string, parts: seq<string>)
    requires IsRoot(root) && parts != [] && AllFree(parts, '/') && AllFree(parts, '\\') && parts[0] != ""
    ensures AsPosix(Replace(root + Join(parts, '/'), '\\', "/")) == Format(root, Components(parts))
  {
    RootOfJoin(root, parts);
    JoinKeepsFree(parts, '/', '\\');
    ReplaceAbsent(root + Join(parts, '/'), '\\', "/");
    SplitJoin(parts, '/');
  }

  lemma {:induction false} ReplaceAppend(a: string, b: string, from: char, to: string)
    ensures Replace(a + b, from, to) == Replace(a, from, to) + Replace(b, from, to)
  {
    if a == "" {
      assert a + b == b;
    } else {
      assert (a + b)[1..] == a[1..] + b;
      ReplaceAppend(a[1..], b, from, to);
    }
  }

  /** A backslash counts as a slash. */
  lemma BackslashIsSlash(a: string, b: string)
    ensures Canonical(a + "\\" + b) == Canonical(a + "/" + b)
  {
    ReplaceAppend(a + "\\", b, '\\', "/");
    ReplaceAppend(a, "\\", '\\', "/");
    ReplaceAppend(a + "/", b, '\\', "/");
    ReplaceAppend(a, "/", '\\', "/");
  }
}
