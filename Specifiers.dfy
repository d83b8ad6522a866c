/**
 * `getPackageNameFromImportSpecifier`: split an import specifier into the
 * package name and the sub-path inside the package.
 */
module Specifiers {
  import opened Strings
  import opened Packages

  /**
   * The splitter as `utils.js` writes it: a specifier starting with `@`
   * takes its first two `/`-segments as the name, any other specifier its
   * first segment; the remaining segments, joined by `/`, are the sub-path.
   * A bare scope (`@scope`, one segment) leaves the second segment
   * `undefined`, which the template literal prints as `undefined`.
   */
  function PackageNameFromSpecifierAsWritten(specifier: string): (string, string)
  {
    var parts := Split(specifier, '/');
    if StartsWith(specifier, "@") then
      (parts[0] + "/" + (if |parts| > 1 then parts[1] else "undefined"),
       if |parts| > 2 then Join(parts[2..], '/') else "")
    else
      (parts[0], Join(parts[1..], '/'))
  }

  /** A bare scope such as `@remix-run` is given the package name `<scope>/undefined`. */
  lemma BareScopeAsWritten(scope: string)
    requires StartsWith(scope, "@") && '/' !in scope
    ensures PackageNameFromSpecifierAsWritten(scope) == (scope + "/undefined", "")
    ensures PackageNameFromSpecifierAsWritten(scope).0 != scope
    ensures PackageNameFromSpecifierAsWritten(scope).0 != scope + "/"
  {
    SplitWithoutSeparator(scope, '/');
    assert scope + "/" + "undefined" == scope + "/undefined";
    var name := scope + "/undefined";
    assert |name| == |scope| + 10;
  }

  /** The splitter with the bare-scope case corrected: a bare scope is its own name. */
  function PackageNameFromSpecifier(specifier: string): (string, string)
  {
    var parts := Split(specifier, '/');
    if StartsWith(specifier, "@") && |parts| == 1 then (specifier, "")
    else PackageNameFromSpecifierAsWritten(specifier)
  }

  /** An unscoped package name is one segment: it has no `/`. */
  lemma UnscopedNameHasNoSlash(specifier: string)
    requires !StartsWith(specifier, "@")
    ensures '/' !in PackageNameFromSpecifier(specifier).0
  {
    SplitPartsFree(specifier, '/');
  }

  /** A scoped specifier with a `/` is named `<scope>/<next segment>`, both free of `/`. */
  lemma ScopedNameIsTwoSegments(specifier: string)
    requires StartsWith(specifier, "@") && '/' in specifier
    ensures var parts := Split(specifier, '/');
            |parts| >= 2 && '/' !in parts[0] && '/' !in parts[1]
            && PackageNameFromSpecifier(specifier).0 == parts[0] + "/" + parts[1]
  {
    var parts := Split(specifier, '/');
    SplitPartsFree(specifier, '/');
    JoinSplit(specifier, '/');
    if |parts| == 1 {
      assert false;
    }
  }

  /** A non-empty sub-path is the rest of the specifier after the name and a `/`. */
  lemma SplitRoundTrip(specifier: string)
    requires PackageNameFromSpecifier(specifier).1 != ""
    ensures PackageNameFromSpecifier(specifier).0 + "/" + PackageNameFromSpecifier(specifier).1 == specifier
  {
    var parts := Split(specifier, '/');
    JoinSplit(specifier, '/');
    if StartsWith(specifier, "@") {
      JoinCons(parts, '/');
      JoinCons(parts[1..], '/');
      assert parts[1..][1..] == parts[2..];
    } else {
      JoinCons(parts, '/');
    }
  }

  /** With an empty sub-path the specifier is the name, possibly followed by one `/`. */
  lemma EmptySubPath(specifier: string)
    requires PackageNameFromSpecifier(specifier).1 == ""
    ensures specifier == PackageNameFromSpecifier(specifier).0
            || specifier == PackageNameFromSpecifier(specifier).0 + "/"
  {
    var parts := Split(specifier, '/');
    JoinSplit(specifier, '/');
    var k := if StartsWith(specifier, "@") then 2 else 1;
    if |parts| > k {
      var rest := parts[k..];
      if |rest| >= 2 {
        JoinCons(rest, '/');
        assert false;
      }
      assert rest == [""];
    }
    if StartsWith(specifier, "@") && |parts| >= 2 {
      JoinCons(parts, '/');
      if |parts| >= 3 {
        JoinCons(parts[1..], '/');
        assert parts[1..][1..] == parts[2..];
      }
    } else if |parts| >= 2 {
      JoinCons(parts, '/');
    }
  }

  /** A name without `/` is not the published name of any package. */
  lemma {:induction false} NoSlashNotScoped(x: string, names: seq<string>)
    requires '/' !in x
    ensures x !in ScopedNames(names)
    decreases |names|
  {
    if names != [] {
      assert Scoped(names[0])[|Scope|] == '/';
      NoSlashNotScoped(x, names[1..]);
    }
  }

  /** `a/b` determines `a` and `b` when neither `a` nor `b` contains `/`. */
  lemma TwoSegmentsDetermined(a: string, b: string, c: string, d: string)
    requires '/' !in a && '/' !in b && '/' !in c
    ensures a + "/" + b == c + "/" + d ==> a == c && b == d
  {
    assert a + "/" + b == a + ['/'] + b;
    assert c + "/" + d == c + ['/'] + d;
    SplitAfterSegment(a, b, '/');
    SplitAfterSegment(c, d, '/');
    SplitWithoutSeparator(b, '/');
    JoinSplit(d, '/');
    if a + "/" + b == c + "/" + d {
      var parts := Split(a + ['/'] + b, '/');
      assert parts == [a, b];
      assert parts == [c] + Split(d, '/');
      assert Split(d, '/') == parts[1..] == [b];
    }
  }

  lemma UndefinedIsNotPackage(scope: string, p: string)
    requires '/' !in scope && p != "undefined"
    ensures scope + "/undefined" != Scoped(p)
  {
    assert scope + "/undefined" == scope + "/" + "undefined";
    TwoSegmentsDetermined(scope, "undefined", Scope, p);
  }

  /** `<scope>/undefined` is a published name only if `undefined` were a package. */
  lemma {:induction false} UndefinedNotScoped(scope: string, names: seq<string>)
    requires '/' !in scope && "undefined" !in names
    ensures scope + "/undefined" !in ScopedNames(names)
    decreases |names|
  {
    if names != [] {
      UndefinedIsNotPackage(scope, names[0]);
      UndefinedNotScoped(scope, names[1..]);
    }
  }

  /**
   * Where the two splitters differ (a bare scope), neither gives the name of
   * a workspace package; everywhere else they agree.
   */
  lemma SplittersAgreeOnWorkspaceNames(specifier: string)
    ensures PackageNameFromSpecifierAsWritten(specifier) != PackageNameFromSpecifier(specifier) ==>
              PackageNameFromSpecifierAsWritten(specifier).0 !in ScopedNames(All)
              && PackageNameFromSpecifier(specifier).0 !in ScopedNames(All)
  {
    var parts := Split(specifier, '/');
    if StartsWith(specifier, "@") && |parts| == 1 {
      JoinSplit(specifier, '/');
      SplitPartsFree(specifier, '/');
      assert specifier == parts[0];
      assert parts[0] + "/" + "undefined" == specifier + "/undefined";
      NoSlashNotScoped(specifier, All);
      assert "undefined" !in All;
      UndefinedNotScoped(specifier, All);
    }
  }
}
