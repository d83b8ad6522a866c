/**
 * The static table of workspace packages (`remixPackages`), their published
 * names under the `@remix-run` scope, and the location of a package's
 * manifest (`packageJson`). Paths are sequences of segments relative to the
 * repository root.
 */
module Packages {
  import opened Strings

  const Adapters: seq<string> :=
    ["architect", "cloudflare-pages", "cloudflare-workers", "express", "netlify", "vercel"]
  const Runtimes: seq<string> := ["cloudflare", "deno", "node"]
  const Core: seq<string> := ["dev", "server-runtime", "react", "eslint-config"]

  /** `remixPackages.all`: the groups flattened, then the `serve` package. Not the publish order. */
  const All: seq<string> := Adapters + Runtimes + Core + ["serve"]

  predicate Distinct(s: seq<string>)
  {
    forall i, j :: 0 <= i < j < |s| ==> s[i] != s[j]
  }

  /** Dropping the last name of a list without repeats leaves one, without that name in it. */
  lemma DistinctInit(s: seq<string>)
    requires Distinct(s) && s != []
    ensures Distinct(s[..|s| - 1]) && s[|s| - 1] !in s[..|s| - 1]
  {
    var init := s[..|s| - 1];
    forall i, j | 0 <= i < j < |init| ensures init[i] != init[j] {
      assert init[i] == s[i] && init[j] == s[j];
    }
    forall i | 0 <= i < |init| ensures init[i] != s[|s| - 1] {
      assert init[i] == s[i];
    }
  }

  /** `all` holds fourteen different names, the groups in order and `serve` last. */
  lemma AllShape()
    ensures |All| == 14 && All[13] == "serve"
    ensures All[..6] == Adapters && All[6..9] == Runtimes && All[9..13] == Core
    ensures Distinct(All)
  {
  }

  /** No package name contains a path or scope separator. */
  lemma AllNamesUnscoped()
    ensures forall p :: p in All ==> '/' !in p
  {
  }

  const Scope: string := "@remix-run"

  /** The published name of a workspace package: `@remix-run/<pkg>`. */
  function Scoped(pkg: string): (name: string)
    ensures |name| == |Scope| + 1 + |pkg| && name[..|Scope|] == Scope && name[|Scope|] == '/'
    ensures name[|Scope| + 1..] == pkg
  {
    Scope + "/" + pkg
  }

  /** Different packages have different published names. */
  lemma ScopedInjective(a: string, b: string)
    requires Scoped(a) == Scoped(b)
    ensures a == b
  {
    assert Scoped(a)[|Scope| + 1..] == a;
  }

  /** `@remix-run/<p>`, then nothing or `/…`, splits at `/` into the scope, `p` and the rest, for a `p` without `/`. */
  lemma SplitScoped(p: string, rest: string)
    requires '/' !in p && (rest == [] || rest[0] == '/')
    ensures Split(Scoped(p) + rest, '/') == if rest == [] then [Scope, p] else [Scope, p] + Split(rest[1..], '/')
  {
    assert '/' !in Scope;
    if rest == [] {
      assert Scoped(p) + rest == Scope + ['/'] + p;
      SplitTwoSegments(Scope, p, '/');
    } else {
      assert Scoped(p) + rest == Scope + ['/'] + (p + ['/'] + rest[1..]);
      SplitThreeSegments(Scope, p, rest[1..], '/');
    }
  }

  lemma SplitTwoSegments(a: string, p: string, sep: char)
    requires sep !in a && sep !in p
    ensures Split(a + [sep] + p, sep) == [a, p]
  {
    SplitAfterSegment(a, p, sep);
    SplitWithoutSeparator(p, sep);
  }

  lemma SplitThreeSegments(a: string, p: string, c: string, sep: char)
    requires sep !in a && sep !in p
    ensures Split(a + [sep] + (p + [sep] + c), sep) == [a, p] + Split(c, sep)
  {
    SplitAfterSegment(a, p + [sep] + c, sep);
    SplitAfterSegment(p, c, sep);
  }

  /** `names.map((p) => "@remix-run/" + p)`. */
  function ScopedNames(names: seq<string>): (r: seq<string>)
    ensures |r| == |names|
    decreases |names|
  {
    if names == [] then [] else [Scoped(names[0])] + ScopedNames(names[1..])
  }

  lemma {:induction false} ScopedNamesAt(names: seq<string>, i: nat)
    requires i < |names|
    ensures ScopedNames(names)[i] == Scoped(names[i])
    decreases i
  {
    if i > 0 {
      ScopedNamesAt(names[1..], i - 1);
    }
  }

  /** A name is in the scoped list exactly when it is `@remix-run/<p>` for a listed `p`. */
  lemma {:induction false} InScopedNames(names: seq<string>, x: string)
    ensures x in ScopedNames(names) <==> exists p :: p in names && x == Scoped(p)
    decreases |names|
  {
    if names != [] {
      InScopedNames(names[1..], x);
      if x != Scoped(names[0]) {
        forall p | p in names && x == Scoped(p) ensures p in names[1..] {
          assert p != names[0];
        }
      }
    }
  }

  lemma {:induction false} ScopedNamesAppend(names: seq<string>, p: string)
    ensures ScopedNames(names + [p]) == ScopedNames(names) + [Scoped(p)]
    decreases |names|
  {
    if names != [] {
      assert (names + [p])[1..] == names[1..] + [p];
      ScopedNamesAppend(names[1..], p);
    }
  }

  lemma ScopedNamesPrefix(names: seq<string>, i: nat)
    requires i < |names|
    ensures ScopedNames(names[..i + 1]) == ScopedNames(names[..i]) + [Scoped(names[i])]
  {
    assert names[..i + 1] == names[..i] + [names[i]];
    ScopedNamesAppend(names[..i], names[i]);
  }

  lemma ScopedNamesWhole(names: seq<string>)
    ensures ScopedNames(names[..|names|]) == ScopedNames(names)
  {
    assert names[..|names|] == names;
  }

  type Path = seq<string>

  /** `packageJson(name, directory)`: `<directory>/<name>/package.json`; an empty directory is dropped. */
  function PackageJson(packageName: string, directory: string): (p: Path)
    ensures |p| >= 2 && p[|p| - 1] == "package.json" && p[|p| - 2] == packageName
    ensures p[..|p| - 2] == (if directory == "" then [] else [directory])
  {
    (if directory == "" then [] else [directory]) + [packageName, "package.json"]
  }

  /** Different packages in one directory have different manifest files. */
  lemma PackageJsonInjective(a: string, b: string, directory: string)
    requires PackageJson(a, directory) == PackageJson(b, directory)
    ensures a == b
  {
    var p := PackageJson(a, directory);
    assert p[|p| - 2] == a;
  }
}
