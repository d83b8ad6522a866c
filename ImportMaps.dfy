/**
 * `updateDenoImportMap`: the entries of a Deno import map that name a
 * workspace package are pointed at that package's build on esm.sh at the
 * new version; everything else in the document is kept.
 */
module ImportMaps {
  import opened Wrappers
  import opened Strings
  import opened JsonValues
  import opened Packages
  import opened Specifiers
  import opened Manifests

  const EsmHost: string := "https://esm.sh/"

  /** `https://esm.sh/<name>@<version>`, followed by `/<subPath>` when the sub-path is not empty. */
  function EsmUrl(name: string, next: string, subPath: string): string
  {
    EsmHost + name + "@" + next + (if subPath != "" then "/" + subPath else "")
  }

  /** One `[importName, path]` pair of the `map` callback. */
  function RewriteEntry(e: (string, Json), next: string): (string, Json)
  {
    var name := PackageNameFromSpecifier(e.0);
    if name.0 in WorkspaceKeys() then (e.0, JString(EsmUrl(name.0, next, name.1))) else e
  }

  /** The same callback with the package name taken from the splitter as `utils.js` writes it. */
  function RewriteEntryAsWritten(e: (string, Json), next: string): (string, Json)
  {
    var name := PackageNameFromSpecifierAsWritten(e.0);
    if name.0 in WorkspaceKeys() then (e.0, JString(EsmUrl(name.0, next, name.1))) else e
  }

  /** `Object.fromEntries(Object.entries(imports).map(...))`, entry by entry. */
  function RewriteImports(entries: Fields, next: string): (r: Fields)
  {
    seq(|entries|, i requires 0 <= i < |entries| => RewriteEntry(entries[i], next))
  }

  /**
   * `Object.entries(v)`: `null` and `undefined` throw a `TypeError`; an
   * object gives its own entries; an array or a string gives one entry per
   * index, keyed by the index in decimal; booleans and numbers give none.
   */
  function ImportEntries(v: Option<Json>): (r: Option<Fields>)
    ensures r.None? <==> v.None? || v.value.JNull?
  {
    match v
    case None => None
    case Some(JNull) => None
    case Some(JBool(_)) => Some([])
    case Some(JNumber(_)) => Some([])
    case Some(JString(s)) => Some(seq(|s|, i requires 0 <= i < |s| => (NatToString(i), JString([s[i]]))))
    case Some(JArray(items)) => Some(seq(|items|, i requires 0 <= i < |items| => (NatToString(i), items[i])))
    case Some(JObject(fs)) => Some(fs)
  }

  /**
   * The document `updateDenoImportMap` writes: `{ ...json, imports: newImports }`,
   * so every field but `imports`, in order, and then the rewritten `imports`.
   * Destructuring a document that is not an object leaves `imports`
   * undefined, and `Object.entries(undefined)` throws.
   */
  function UpdatedImportMap(doc: Json, next: string): (r: Result<Json, EditError>)
    ensures r.Ok? <==> doc.JObject? && ImportEntries(Lookup(doc.fields, "imports")).Some?
    ensures r.Ok? ==> r.value.JObject? && Keys(r.value.fields) == Keys(Remove(doc.fields, "imports")) + ["imports"]
  {
    if !doc.JObject? then Err(TypeError)
    else match ImportEntries(Lookup(doc.fields, "imports"))
      case None => Err(TypeError)
      case Some(entries) =>
        Ok(JObject(Remove(doc.fields, "imports") + [("imports", JObject(RewriteImports(entries, next)))]))
  }

  /** The rewrite keeps every import name, in order. */
  lemma RewriteImportsKeys(entries: Fields, next: string)
    ensures Keys(RewriteImports(entries, next)) == Keys(entries)
  {
  }

  /**
   * An entry whose specifier names a workspace package gets its esm.sh URL;
   * every other entry keeps its value.
   */
  lemma RewriteImportsAt(entries: Fields, next: string, i: nat)
    requires i < |entries|
    ensures var r := RewriteImports(entries, next);
            var name := PackageNameFromSpecifier(entries[i].0);
            |r| == |entries| && r[i].0 == entries[i].0
            && (name.0 in ScopedNames(All) <==> exists p :: p in All && name.0 == Scoped(p))
            && r[i].1 == (if name.0 in ScopedNames(All) then JString(EsmUrl(name.0, next, name.1)) else entries[i].1)
  {
    InScopedNames(All, PackageNameFromSpecifier(entries[i].0).0);
  }

  /** `@remix-run/<p>` alone, for a package `p`, is rewritten to the bare esm.sh URL. */
  lemma WorkspacePackageUrl(p: string, v: Json, next: string)
    requires p in All
    ensures RewriteEntry((Scoped(p), v), next) == (Scoped(p), JString(EsmHost + Scope + "/" + p + "@" + next))
  {
    AllNamesUnscoped();
    SplitScoped(p, "");
    assert Scoped(p) + "" == Scoped(p);
    assert Scoped(p)[..1] == "@";
    assert PackageNameFromSpecifier(Scoped(p)) == (Scoped(p), "");
    InScopedNames(All, Scoped(p));
    assert Scoped(p) in WorkspaceKeys();
    assert EsmUrl(Scoped(p), next, "") == EsmHost + Scope + "/" + p + "@" + next;
  }

  /** `@remix-run/<p>/<sub>`, for a package `p` and a non-empty sub-path, keeps the sub-path in the URL. */
  lemma WorkspaceSubPathUrl(p: string, sub: string, v: Json, next: string)
    requires p in All && sub != ""
    ensures RewriteEntry((Scoped(p) + "/" + sub, v), next)
            == (Scoped(p) + "/" + sub, JString(EsmHost + Scope + "/" + p + "@" + next + "/" + sub))
  {
    AllNamesUnscoped();
    var spec := Scoped(p) + ("/" + sub);
    assert Scoped(p) + "/" + sub == spec;
    SplitScoped(p, "/" + sub);
    assert ("/" + sub)[1..] == sub;
    var parts := Split(spec, '/');
    assert parts[2..] == Split(sub, '/');
    JoinSplit(sub, '/');
    assert spec[..1] == "@";
    assert PackageNameFromSpecifier(spec) == (Scoped(p), sub);
    InScopedNames(All, Scoped(p));
    assert Scoped(p) in WorkspaceKeys();
    assert EsmUrl(Scoped(p), next, sub) == EsmHost + Scope + "/" + p + "@" + next + "/" + sub;
  }

  /** A specifier without `/` that is not scoped, such as an index key, is never rewritten. */
  lemma PlainSpecifierKept(e: (string, Json), next: string)
    requires '/' !in e.0 && !StartsWith(e.0, "@")
    ensures RewriteEntry(e, next) == e
  {
    SplitWithoutSeparator(e.0, '/');
    NoSlashNotScoped(e.0, All);
  }

  /** The entries `Object.entries` gives for an array or a string are all kept as they are. */
  lemma IndexEntriesKept(v: Json, next: string)
    requires v.JArray? || v.JString?
    ensures var entries := ImportEntries(Some(v)).value;
            RewriteImports(entries, next) == entries
  {
    var entries := ImportEntries(Some(v)).value;
    forall i | 0 <= i < |entries| ensures RewriteEntry(entries[i], next) == entries[i] {
      var k := entries[i].0;
      assert k == NatToString(i);
      assert k[0] != '@';
      PlainSpecifierKept(entries[i], next);
    }
  }

  /** Rewriting an already rewritten import map changes nothing. */
  lemma RewriteImportsIdempotent(entries: Fields, next: string)
    ensures RewriteImports(RewriteImports(entries, next), next) == RewriteImports(entries, next)
  {
  }

  /** Where the splitters differ, neither names a workspace package, so the rewrite is the same. */
  lemma RewriteEntrySplittersAgree(e: (string, Json), next: string)
    ensures RewriteEntryAsWritten(e, next) == RewriteEntry(e, next)
  {
    SplittersAgreeOnWorkspaceNames(e.0);
  }

  /** Every top-level field but `imports` keeps its value; `imports` holds the rewritten entries. */
  lemma UpdatedImportMapFields(doc: Json, next: string, k: string)
    requires UpdatedImportMap(doc, next).Ok?
    ensures var fs := UpdatedImportMap(doc, next).value.fields;
            var entries := ImportEntries(Lookup(doc.fields, "imports")).value;
            (k != "imports" ==> Lookup(fs, k) == Lookup(doc.fields, k))
            && Lookup(fs, "imports") == Some(JObject(RewriteImports(entries, next)))
  {
    var rest := Remove(doc.fields, "imports");
    var entries := ImportEntries(Lookup(doc.fields, "imports")).value;
    LookupAppend(rest, "imports", JObject(RewriteImports(entries, next)), k);
    LookupAppend(rest, "imports", JObject(RewriteImports(entries, next)), "imports");
    if k != "imports" {
      RemoveLookup(doc.fields, "imports", k);
    }
  }

  /** Looking up in an object whose last entry has a key the rest does not have. */
  lemma {:induction false} LookupAppend(fs: Fields, key: string, v: Json, k: string)
    requires key !in Keys(fs)
    ensures Lookup(fs + [(key, v)], k) == if k == key then Some(v) else Lookup(fs, k)
    decreases |fs|
  {
    if fs != [] {
      assert (fs + [(key, v)])[1..] == fs[1..] + [(key, v)];
      LookupAppend(fs[1..], key, v, k);
    } else {
      assert [(key, v)][1..] == [];
    }
  }

  /**
   * In a parsed document whose `imports` is at index `i`, the other fields
   * keep their relative order and the new `imports` comes last.
   */
  lemma UpdatedImportMapOrder(doc: Json, next: string, i: nat)
    requires doc.JObject? && DistinctKeys(doc.fields) && i < |doc.fields| && doc.fields[i].0 == "imports"
    requires UpdatedImportMap(doc, next).Ok?
    ensures var fs := doc.fields;
            var entries := ImportEntries(Lookup(fs, "imports")).value;
            UpdatedImportMap(doc, next).value.fields
            == fs[..i] + fs[i + 1..] + [("imports", JObject(RewriteImports(entries, next)))]
  {
    RemoveAt(doc.fields, "imports", i);
    LookupAt(doc.fields, i);
  }

  /** Rewriting the written import map again with the same version writes the same document. */
  lemma UpdatedImportMapIdempotent(doc: Json, next: string)
    requires UpdatedImportMap(doc, next).Ok?
    ensures UpdatedImportMap(UpdatedImportMap(doc, next).value, next) == UpdatedImportMap(doc, next)
  {
    var rest := Remove(doc.fields, "imports");
    var entries := ImportEntries(Lookup(doc.fields, "imports")).value;
    var written := JObject(rest + [("imports", JObject(RewriteImports(entries, next)))]);
    LookupAppend(rest, "imports", JObject(RewriteImports(entries, next)), "imports");
    RemoveAbsent(rest, "imports");
    RemoveAppendLast(rest, "imports", JObject(RewriteImports(entries, next)));
    RewriteImportsIdempotent(entries, next);
    assert ImportEntries(Lookup(written.fields, "imports")) == Some(RewriteImports(entries, next));
  }

  /** Removing the key of the last entry drops that entry. */
  lemma {:induction false} RemoveAppendLast(fs: Fields, key: string, v: Json)
    ensures Remove(fs + [(key, v)], key) == Remove(fs, key)
    decreases |fs|
  {
    if fs == [] {
      assert [(key, v)][1..] == [];
    } else {
      assert (fs + [(key, v)])[1..] == fs[1..] + [(key, v)];
      RemoveAppendLast(fs[1..], key, v);
    }
  }
}
