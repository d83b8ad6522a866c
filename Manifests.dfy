/**
 * The edits the release scripts make to a parsed `package.json`: the
 * version bump of `updateRemixVersion` (set `version`, re-pin every
 * non-empty `@remix-run/<pkg>` dependency to the new version), the
 * deployment script's `@remix-run/dev` pin, and the name printed for a
 * package.
 *
 * The scripts run in sloppy mode: assigning a property of a primitive value
 * is silently ignored, and a property set on an array is not serialized, so
 * the edits leave a non-object document as it is.
 */
module Manifests {
  import opened Wrappers
  import opened Strings
  import opened JsonValues
  import opened Packages

  const DependencyFields: seq<string> := ["dependencies", "devDependencies", "peerDependencies"]

  /** The three dependency fields, each with the same list of keys to pin. */
  function Uniform(keys: seq<string>): map<string, seq<string>>
  {
    map["dependencies" := keys, "devDependencies" := keys, "peerDependencies" := keys]
  }

  /** The keys the bump re-pins: `@remix-run/<pkg>` for every `pkg` in `all`. */
  function WorkspaceKeys(): seq<string>
  {
    ScopedNames(All)
  }

  // ---------------------------------------------------------------------------
  // The bump as a specification: entry by entry.

  function PinEntry(e: (string, Json), keys: seq<string>, next: string): (string, Json)
  {
    if e.0 in keys && Truthy(e.1) then (e.0, JString(next)) else e
  }

  /** A dependency object with every truthy entry whose key is in `keys` set to `next`. */
  function PinEntries(ds: Fields, keys: seq<string>, next: string): Fields
    decreases |ds|
  {
    if ds == [] then [] else [PinEntry(ds[0], keys, next)] + PinEntries(ds[1..], keys, next)
  }

  function PinField(e: (string, Json), pins: map<string, seq<string>>, next: string): (string, Json)
  {
    if e.0 in pins && e.1.JObject? then (e.0, JObject(PinEntries(e.1.fields, pins[e.0], next))) else e
  }

  /** A manifest's fields with the object-valued fields named in `pins` pinned. */
  function PinFields(fs: Fields, pins: map<string, seq<string>>, next: string): Fields
    decreases |fs|
  {
    if fs == [] then [] else [PinField(fs[0], pins, next)] + PinFields(fs[1..], pins, next)
  }

  /** The transform `updateRemixVersion` hands to `updatePackageConfig`. */
  function RemixVersionEdit(config: Json, next: string): Json
  {
    if config.JObject? then
      JObject(PinFields(Put(config.fields, "version", JString(next)), Uniform(WorkspaceKeys()), next))
    else config
  }

  function RemixVersionTransform(next: string): Json -> Json
  {
    config => RemixVersionEdit(config, next)
  }

  // ---------------------------------------------------------------------------
  // The bump as `utils.js` runs it: one conditional assignment per package and field.

  /** `if (deps[key]) deps[key] = next;` on one dependency object. */
  function SetEntryIfTruthy(ds: Fields, key: string, next: string): Fields
  {
    match Lookup(ds, key)
    case Some(v) => if Truthy(v) then Put(ds, key, JString(next)) else ds
    case None => ds
  }

  /** `if (config[field]?.[key]) config[field][key] = next;` */
  function SetIfTruthy(config: Json, field: string, key: string, next: string): Json
  {
    if !config.JObject? then config
    else
      match Lookup(config.fields, field)
      case Some(JObject(ds)) =>
        JObject(Put(config.fields, field, JObject(SetEntryIfTruthy(ds, key, next))))
      case _ => config
  }

  /** Keys distinct at the top level and inside every object-valued field. */
  predicate ShallowDistinct(fs: Fields)
  {
    DistinctKeys(fs) && forall i :: 0 <= i < |fs| && fs[i].1.JObject? ==> DistinctKeys(fs[i].1.fields)
  }

  lemma WellFormedShallow(fs: Fields)
    requires WellFormed(JObject(fs))
    ensures ShallowDistinct(fs)
  {
    forall i | 0 <= i < |fs| && fs[i].1.JObject? ensures DistinctKeys(fs[i].1.fields) {
      assert WellFormed(fs[i].1);
    }
  }

  lemma PutShallow(fs: Fields, key: string, v: Json)
    requires ShallowDistinct(fs) && !v.JObject?
    ensures ShallowDistinct(Put(fs, key, v))
  {
    PutKeepsDistinct(fs, key, v);
    var r := Put(fs, key, v);
    PutEntries(fs, key, v);
    forall i | 0 <= i < |r| && r[i].1.JObject? ensures DistinctKeys(r[i].1.fields) {
      assert r[i] in r;
    }
  }

  /** The method that runs the loop of `updateRemixVersion`'s transform computes the specification. */
  method TransformRemixVersion(config: Json, nextVersion: string) returns (r: Json)
    requires WellFormed(config)
    ensures r == RemixVersionEdit(config, nextVersion)
  {
    r := config;
    if !r.JObject? {
      return;
    }
    WellFormedShallow(r.fields);
    PutShallow(r.fields, "version", JString(nextVersion));
    r := JObject(Put(r.fields, "version", JString(nextVersion)));
    ghost var base := r.fields;
    PinFieldsNothing(base, Uniform([]), nextVersion);
    for i := 0 to |All|
      invariant r == JObject(PinFields(base, Uniform(ScopedNames(All[..i])), nextVersion))
    {
      var key := Scoped(All[i]);
      PinPackageStep(base, ScopedNames(All[..i]), key, nextVersion);
      r := SetIfTruthy(r, "dependencies", key, nextVersion);
      r := SetIfTruthy(r, "devDependencies", key, nextVersion);
      r := SetIfTruthy(r, "peerDependencies", key, nextVersion);
      ScopedNamesPrefix(All, i);
    }
    ScopedNamesWhole(All);
  }

  // ---------------------------------------------------------------------------
  // Lemmas connecting the two.

  lemma {:induction false} PinEntriesNothing(ds: Fields, next: string)
    ensures PinEntries(ds, [], next) == ds
    decreases |ds|
  {
    if ds != [] {
      PinEntriesNothing(ds[1..], next);
    }
  }

  lemma {:induction false} PinFieldsNothing(fs: Fields, pins: map<string, seq<string>>, next: string)
    requires forall f :: f in pins ==> pins[f] == []
    ensures PinFields(fs, pins, next) == fs
    decreases |fs|
  {
    if fs != [] {
      PinFieldsNothing(fs[1..], pins, next);
      if fs[0].0 in pins && fs[0].1.JObject? {
        PinEntriesNothing(fs[0].1.fields, next);
      }
    }
  }

  /** A key that no entry has makes no difference to the pinning. */
  lemma {:induction false} PinEntriesAbsentKey(ds: Fields, keys: seq<string>, k: string, next: string)
    requires k !in Keys(ds)
    ensures PinEntries(ds, keys + [k], next) == PinEntries(ds, keys, next)
    decreases |ds|
  {
    if ds != [] {
      PinEntriesAbsentKey(ds[1..], keys, k, next);
    }
  }

  lemma {:induction false} PinFieldsAbsentField(fs: Fields, pins: map<string, seq<string>>, f: string,
                                                 keys: seq<string>, next: string)
    requires f in pins && f !in Keys(fs)
    ensures PinFields(fs, pins[f := keys], next) == PinFields(fs, pins, next)
    decreases |fs|
  {
    if fs != [] {
      PinFieldsAbsentField(fs[1..], pins, f, keys, next);
    }
  }

  lemma {:induction false} PinEntriesKeys(ds: Fields, keys: seq<string>, next: string)
    ensures Keys(PinEntries(ds, keys, next)) == Keys(ds)
    decreases |ds|
  {
    if ds != [] {
      PinEntriesKeys(ds[1..], keys, next);
    }
  }

  lemma {:induction false} PinFieldsKeys(fs: Fields, pins: map<string, seq<string>>, next: string)
    ensures Keys(PinFields(fs, pins, next)) == Keys(fs)
    decreases |fs|
  {
    if fs != [] {
      PinFieldsKeys(fs[1..], pins, next);
    }
  }

  lemma DistinctTail(fs: Fields)
    requires fs != [] && DistinctKeys(fs)
    ensures DistinctKeys(fs[1..]) && fs[0].0 !in Keys(fs[1..])
  {
    forall m | 0 <= m < |fs| - 1 ensures Keys(fs[1..])[m] != fs[0].0 {
      assert fs[1..][m] == fs[m + 1];
    }
  }

  /** One conditional assignment extends the pinned keys of a dependency object by one key. */
  lemma {:induction false} PinEntriesStep(ds: Fields, keys: seq<string>, k: string, next: string)
    requires DistinctKeys(ds)
    ensures SetEntryIfTruthy(PinEntries(ds, keys, next), k, next) == PinEntries(ds, keys + [k], next)
    decreases |ds|
  {
    if ds != [] {
      var rest := ds[1..];
      DistinctTail(ds);
      var p := PinEntries(ds, keys, next);
      assert p == [PinEntry(ds[0], keys, next)] + PinEntries(rest, keys, next);
      if ds[0].0 == k {
        PinEntriesAbsentKey(rest, keys, k, next);
        assert Lookup(p, k) == Some(PinEntry(ds[0], keys, next).1);
      } else {
        PinEntriesStep(rest, keys, k, next);
        assert PinEntry(ds[0], keys + [k], next) == PinEntry(ds[0], keys, next);
      }
    }
  }

  /** One conditional assignment extends the pinned keys of one dependency field by one key. */
  lemma {:induction false} PinFieldsStep(fs: Fields, pins: map<string, seq<string>>, f: string, k: string, next: string)
    requires ShallowDistinct(fs) && f in pins
    ensures SetIfTruthy(JObject(PinFields(fs, pins, next)), f, k, next)
            == JObject(PinFields(fs, pins[f := pins[f] + [k]], next))
    decreases |fs|
  {
    var pins' := pins[f := pins[f] + [k]];
    if fs == [] {
    } else {
      var rest := fs[1..];
      DistinctTail(fs);
      assert ShallowDistinct(rest) by {
        forall i | 0 <= i < |rest| && rest[i].1.JObject? ensures DistinctKeys(rest[i].1.fields) {
          assert rest[i] == fs[i + 1];
        }
      }
      var p := PinFields(fs, pins, next);
      assert p == [PinField(fs[0], pins, next)] + PinFields(rest, pins, next);
      if fs[0].0 == f {
        PinFieldsAbsentField(rest, pins, f, pins[f] + [k], next);
        if fs[0].1.JObject? {
          PinEntriesStep(fs[0].1.fields, pins[f], k, next);
        }
      } else {
        PinFieldsStep(rest, pins, f, k, next);
        assert PinField(fs[0], pins', next) == PinField(fs[0], pins, next);
      }
    }
  }

  /** The three conditional assignments for one package extend the pinned keys of every dependency field. */
  lemma PinPackageStep(base: Fields, ks: seq<string>, key: string, next: string)
    requires ShallowDistinct(base)
    ensures SetIfTruthy(SetIfTruthy(SetIfTruthy(JObject(PinFields(base, Uniform(ks), next)),
              "dependencies", key, next), "devDependencies", key, next), "peerDependencies", key, next)
            == JObject(PinFields(base, Uniform(ks + [key]), next))
  {
    var p0 := Uniform(ks);
    var p1 := p0["dependencies" := ks + [key]];
    var p2 := p1["devDependencies" := ks + [key]];
    var p3 := p2["peerDependencies" := ks + [key]];
    PinFieldsStep(base, p0, "dependencies", key, next);
    PinFieldsStep(base, p1, "devDependencies", key, next);
    PinFieldsStep(base, p2, "peerDependencies", key, next);
    assert p3 == Uniform(ks + [key]);
  }

  // ---------------------------------------------------------------------------
  // What the bump promises.

  lemma {:induction false} LookupPinEntries(ds: Fields, keys: seq<string>, k: string, next: string)
    ensures Lookup(PinEntries(ds, keys, next), k)
            == match Lookup(ds, k)
               case None => None
               case Some(v) => Some(if k in keys && Truthy(v) then JString(next) else v)
    decreases |ds|
  {
    if ds != [] {
      LookupPinEntries(ds[1..], keys, k, next);
    }
  }

  /** A field that is not pinned, or does not hold an object, is looked up unchanged. */
  lemma {:induction false} LookupPinFieldsOther(fs: Fields, pins: map<string, seq<string>>, k: string, next: string)
    requires k !in pins || Lookup(fs, k).None? || !Lookup(fs, k).value.JObject?
    ensures Lookup(PinFields(fs, pins, next), k) == Lookup(fs, k)
    decreases |fs|
  {
    if fs != [] && fs[0].0 != k {
      LookupPinFieldsOther(fs[1..], pins, k, next);
    }
  }

  /** A pinned field holding an object is looked up with its entries pinned. */
  lemma {:induction false} LookupPinFieldsPinned(fs: Fields, pins: map<string, seq<string>>, k: string,
                                                  ds: Fields, next: string)
    requires k in pins && Lookup(fs, k) == Some(JObject(ds))
    ensures Lookup(PinFields(fs, pins, next), k) == Some(JObject(PinEntries(ds, pins[k], next)))
    decreases |fs|
  {
    if fs[0].0 != k {
      LookupPinFieldsPinned(fs[1..], pins, k, ds, next);
    }
  }

  /** After the bump the manifest's `version` is the new version. */
  lemma RemixVersionEditSetsVersion(config: Json, next: string)
    requires config.JObject?
    ensures RemixVersionEdit(config, next).JObject?
    ensures Lookup(RemixVersionEdit(config, next).fields, "version") == Some(JString(next))
  {
    LookupPinFieldsOther(Put(config.fields, "version", JString(next)), Uniform(WorkspaceKeys()), "version", next);
  }

  /**
   * Every `@remix-run/<pkg>` dependency (for `pkg` in `all`) that had a
   * truthy value in one of the three dependency objects is now exactly
   * `next`; every other entry has its old value.
   */
  lemma ExactPins(config: Json, next: string, field: string, ds: Fields, key: string)
    requires config.JObject? && field in DependencyFields
    requires Lookup(config.fields, field) == Some(JObject(ds))
    ensures exists ds' :: Lookup(RemixVersionEdit(config, next).fields, field) == Some(JObject(ds'))
                         && Keys(ds') == Keys(ds)
                         && Lookup(ds', key) == match Lookup(ds, key)
                                                case None => None
                                                case Some(v) =>
                                                  Some(if (exists p :: p in All && key == Scoped(p)) && Truthy(v)
                                                       then JString(next) else v)
  {
    var fs := Put(config.fields, "version", JString(next));
    assert Lookup(fs, field) == Some(JObject(ds));
    LookupPinFieldsPinned(fs, Uniform(WorkspaceKeys()), field, ds, next);
    var ds' := PinEntries(ds, WorkspaceKeys(), next);
    PinEntriesKeys(ds, WorkspaceKeys(), next);
    LookupPinEntries(ds, WorkspaceKeys(), key, next);
    InScopedNames(All, key);
    assert Lookup(RemixVersionEdit(config, next).fields, field) == Some(JObject(ds'));
  }

  /** The bump adds no top-level key except `version`. */
  lemma RemixVersionEditKeys(config: Json, next: string)
    requires config.JObject?
    ensures Keys(RemixVersionEdit(config, next).fields)
            == if "version" in Keys(config.fields) then Keys(config.fields) else Keys(config.fields) + ["version"]
  {
    PinFieldsKeys(Put(config.fields, "version", JString(next)), Uniform(WorkspaceKeys()), next);
  }

  /**
   * Every top-level field other than `version` keeps its value, unless it is
   * one of the three dependency fields holding an object.
   */
  lemma RemixVersionEditKeepsOthers(config: Json, next: string, k: string)
    requires config.JObject? && k != "version"
    requires k !in DependencyFields || !(Lookup(config.fields, k).Some? && Lookup(config.fields, k).value.JObject?)
    ensures Lookup(RemixVersionEdit(config, next).fields, k) == Lookup(config.fields, k)
  {
    var fs := Put(config.fields, "version", JString(next));
    assert Lookup(fs, k) == Lookup(config.fields, k);
    LookupPinFieldsOther(fs, Uniform(WorkspaceKeys()), k, next);
  }

  lemma {:induction false} PinEntriesTwice(ds: Fields, keys: seq<string>, next: string)
    ensures PinEntries(PinEntries(ds, keys, next), keys, next) == PinEntries(ds, keys, next)
    decreases |ds|
  {
    if ds != [] {
      PinEntriesTwice(ds[1..], keys, next);
    }
  }

  lemma {:induction false} PinFieldsTwice(fs: Fields, pins: map<string, seq<string>>, next: string)
    ensures PinFields(PinFields(fs, pins, next), pins, next) == PinFields(fs, pins, next)
    decreases |fs|
  {
    if fs != [] {
      PinFieldsTwice(fs[1..], pins, next);
      if fs[0].0 in pins && fs[0].1.JObject? {
        PinEntriesTwice(fs[0].1.fields, pins[fs[0].0], next);
      }
    }
  }

  /** Bumping twice to the same version is bumping once. */
  lemma RemixVersionEditIdempotent(config: Json, next: string)
    ensures RemixVersionEdit(RemixVersionEdit(config, next), next) == RemixVersionEdit(config, next)
  {
    if config.JObject? {
      var once := RemixVersionEdit(config, next);
      RemixVersionEditSetsVersion(config, next);
      PutSame(once.fields, "version", JString(next));
      PinFieldsTwice(Put(config.fields, "version", JString(next)), Uniform(WorkspaceKeys()), next);
    }
  }

  /** Pinning entries keeps an object free of repeated keys, at every depth. */
  lemma {:induction false} PinEntriesWellFormed(ds: Fields, keys: seq<string>, next: string)
    requires WellFormed(JObject(ds))
    ensures WellFormed(JObject(PinEntries(ds, keys, next)))
    decreases |ds|
  {
    if ds != [] {
      var r := PinEntries(ds, keys, next);
      var rest := PinEntries(ds[1..], keys, next);
      WellFormedTail(ds);
      PinEntriesWellFormed(ds[1..], keys, next);
      PinEntriesKeys(ds, keys, next);
      SameKeysDistinct(ds, r);
      forall i | 0 <= i < |r| ensures WellFormed(r[i].1) {
        if i > 0 {
          assert r[i] == rest[i - 1];
        }
      }
    }
  }

  lemma {:induction false} PinFieldsWellFormed(fs: Fields, pins: map<string, seq<string>>, next: string)
    requires WellFormed(JObject(fs))
    ensures WellFormed(JObject(PinFields(fs, pins, next)))
    decreases |fs|
  {
    if fs != [] {
      var r := PinFields(fs, pins, next);
      var rest := PinFields(fs[1..], pins, next);
      WellFormedTail(fs);
      PinFieldsWellFormed(fs[1..], pins, next);
      PinFieldsKeys(fs, pins, next);
      SameKeysDistinct(fs, r);
      if fs[0].0 in pins && fs[0].1.JObject? {
        PinEntriesWellFormed(fs[0].1.fields, pins[fs[0].0], next);
      }
      forall i | 0 <= i < |r| ensures WellFormed(r[i].1) {
        if i > 0 {
          assert r[i] == rest[i - 1];
        }
      }
    }
  }

  /**
   * The bump of a document `JSON.parse` produced is again such a document,
   * so a manifest bumped earlier still meets what the loop needs.
   */
  lemma RemixVersionEditWellFormed(config: Json, next: string)
    requires WellFormed(config)
    ensures WellFormed(RemixVersionEdit(config, next))
  {
    if config.JObject? {
      PutWellFormed(config.fields, "version", JString(next));
      PinFieldsWellFormed(Put(config.fields, "version", JString(next)), Uniform(WorkspaceKeys()), next);
    }
  }

  // ---------------------------------------------------------------------------
  // The deployment test script and the printed package name.

  datatype EditError = TypeError

  /**
   * `json.dependencies["@remix-run/dev"] = next`: `null`, a missing
   * `dependencies` or a non-object document throws.
   */
  function DeploymentEdit(json: Json, next: string): (r: Result<Json, EditError>)
    ensures r.Ok? <==> json.JObject? && Lookup(json.fields, "dependencies").Some?
                         && Lookup(json.fields, "dependencies").value != JNull
    ensures r.Ok? && Lookup(json.fields, "dependencies").value.JObject? ==>
              r.value.JObject? && Keys(r.value.fields) == Keys(json.fields)
              && Lookup(r.value.fields, "dependencies").Some?
              && Lookup(r.value.fields, "dependencies").value.JObject?
              && Lookup(Lookup(r.value.fields, "dependencies").value.fields, "@remix-run/dev") == Some(JString(next))
              && (forall k :: k != "dependencies" ==> Lookup(r.value.fields, k) == Lookup(json.fields, k))
              && (forall k :: k != "@remix-run/dev" ==>
                    Lookup(Lookup(r.value.fields, "dependencies").value.fields, k)
                    == Lookup(Lookup(json.fields, "dependencies").value.fields, k))
    ensures r.Ok? && Lookup(json.fields, "dependencies").value.JObject? ==>
              var ds := Lookup(json.fields, "dependencies").value.fields;
              Keys(Lookup(r.value.fields, "dependencies").value.fields)
              == if "@remix-run/dev" in Keys(ds) then Keys(ds) else Keys(ds) + ["@remix-run/dev"]
    ensures r.Ok? && !Lookup(json.fields, "dependencies").value.JObject? ==> r.value == json
  {
    if !json.JObject? then Err(TypeError)
    else
      match Lookup(json.fields, "dependencies")
      case None => Err(TypeError)
      case Some(JNull) => Err(TypeError)
      case Some(JObject(ds)) =>
        Ok(JObject(Put(json.fields, "dependencies", JObject(Put(ds, "@remix-run/dev", JString(next))))))
      case Some(_) => Ok(json)
  }

  /** The name `updateRemixVersion` prints: `remix-<x>` is shown as `@remix-run/<x>`. */
  function LogName(packageName: string): string
  {
    if StartsWith(packageName, "remix-") then Scoped(packageName[6..]) else packageName
  }

  lemma LogNameCases(n: string)
    ensures LogName("remix-" + n) == Scoped(n)
    ensures !StartsWith(n, "remix-") ==> LogName(n) == n
  {
    assert ("remix-" + n)[..6] == "remix-";
    assert ("remix-" + n)[6..] == n;
  }

  /** The line `updateRemixVersion` prints after an update, without colours. */
  function UpdatedLine(packageName: string, next: string, successMessage: string): string
  {
    "  " + if successMessage != "" then successMessage
           else "Updated " + LogName(packageName) + " to version " + next
  }
}
