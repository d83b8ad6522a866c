/**
 * `publish-private.js`: read the release version back from the tag at
 * `HEAD`, derive the npm distribution channel from it, then patch and
 * publish the built packages one by one in a fixed order, stopping at the
 * first failure.
 */
module Publish {
  import opened Wrappers
  import opened Strings
  import opened JsonValues
  import opened Packages
  import opened Manifests
  import opened Repository
  import Release

  // ---------------------------------------------------------------------------
  // The version and the channel.

  /** `getTaggedVersion` on the command's output: trimmed, one leading `v` removed. */
  function TaggedVersion(output: string): (v: string)
    ensures StartsWith(Trim(output), "v") ==> "v" + v == Trim(output)
    ensures !StartsWith(Trim(output), "v") ==> v == Trim(output)
  {
    var t := Trim(output);
    if StartsWith(t, "v") then t[1..] else t
  }

  /** Reading back the single tag `v<v>` at `HEAD` gives `<v>`, whatever `<v>` starts with. */
  lemma TaggedVersionRoundTrip(v: string)
    requires v == [] || !IsJsWhitespace(v[|v| - 1])
    ensures TaggedVersion(TagListing(["v" + v])) == v
  {
    var tag := "v" + v;
    assert TagListing([tag]) == tag + "\n" + TagListing([]);
    assert TagListing([]) == "";
    assert TagListing([tag]) == tag + ['\n'];
    assert !IsJsWhitespace(tag[0]);
    assert !IsJsWhitespace(tag[|tag| - 1]);
    TrimFinalNewline(tag);
    assert StartsWith(tag, "v");
    assert tag[1..] == v;
  }

  /** Only one `v` goes: the tag `vv1.0.0` gives `v1.0.0`. */
  lemma OneLeadingVRemoved(rest: string)
    requires rest == [] || (!IsJsWhitespace(rest[0]) && !IsJsWhitespace(rest[|rest| - 1]))
    ensures TaggedVersion("v" + rest) == rest
  {
    var t := "v" + rest;
    assert !IsJsWhitespace(t[0]);
    assert !IsJsWhitespace(t[|t| - 1]);
    TrimmedAlready(t);
    assert StartsWith(t, "v");
    assert t[1..] == rest;
  }

  /** The part of `s` before the first `c`, all of `s` when there is none. */
  function Before(s: string, c: char): (r: string)
    ensures StartsWith(s, r) && c !in r
    decreases |s|
  {
    if s == [] || s[0] == c then "" else [s[0]] + Before(s[1..], c)
  }

  /** The part of `s` after the first `c`, if there is one. */
  function After(s: string, c: char): (r: Option<string>)
    ensures r.None? <==> c !in s
    ensures r.Some? ==> s == Before(s, c) + [c] + r.value
    decreases |s|
  {
    if s == [] then None
    else if s[0] == c then Some(s[1..])
    else After(s[1..], c)
  }

  /**
   * `semver.prerelease(v)[0]` for a valid version: build metadata after `+`
   * dropped, then the first `.`-separated identifier after the first `-`.
   */
  function FirstPrerelease(version: string): Option<string>
  {
    match After(Before(version, '+'), '-')
    case None => None
    case Some(pre) => Some(Before(pre, '.'))
  }

  /** The distribution tag: `nightly`, then `experimental`, then the identifier itself; no (or an empty) identifier is `latest`. */
  function Channel(prerelease: Option<string>): (tag: string)
    ensures prerelease.None? || prerelease.value == "" ==> tag == "latest"
    ensures prerelease.Some? && prerelease.value != "" && Contains(prerelease.value, "nightly") ==> tag == "nightly"
    ensures (prerelease.Some? && prerelease.value != "" && !Contains(prerelease.value, "nightly")
             && Contains(prerelease.value, "experimental")) ==> tag == "experimental"
    ensures (prerelease.Some? && prerelease.value != "" && !Contains(prerelease.value, "nightly")
             && !Contains(prerelease.value, "experimental")) ==> tag == prerelease.value
  {
    match prerelease
    case None => "latest"
    case Some(id) =>
      if id == "" then "latest"
      else if Contains(id, "nightly") then "nightly"
      else if Contains(id, "experimental") then "experimental"
      else id
  }

  lemma {:induction false} BeforeAbsent(s: string, c: char)
    requires c !in s
    ensures Before(s, c) == s
    decreases |s|
  {
    if s != [] {
      BeforeAbsent(s[1..], c);
    }
  }

  lemma {:induction false} BeforeAt(a: string, c: char, b: string)
    requires c !in a
    ensures Before(a + [c] + b, c) == a
    decreases |a|
  {
    if a != [] {
      assert (a + [c] + b)[1..] == a[1..] + [c] + b;
      BeforeAt(a[1..], c, b);
    }
  }

  lemma AfterAt(a: string, c: char, b: string)
    requires c !in a
    ensures After(a + [c] + b, c) == Some(b)
  {
    var s := a + [c] + b;
    assert c in s by {
      assert s[|a|] == c;
    }
    BeforeAt(a, c, b);
    var r := After(s, c);
    assert s == a + [c] + r.value;
    assert s[|a| + 1..] == b && s[|a| + 1..] == r.value;
  }

  /** A version without `-` before its build metadata has no pre-release identifier. */
  lemma ReleaseVersionIsLatest(core: string, build: string)
    requires '-' !in core && '+' !in core
    ensures FirstPrerelease(core) == None && FirstPrerelease(core + ['+'] + build) == None
  {
    BeforeAbsent(core, '+');
    BeforeAt(core, '+', build);
  }

  /** `<core>-<id>[.<more>]`: the identifier is `<id>`. */
  lemma PrereleaseIdentifier(version: string, core: string, id: string, more: string)
    requires version == core + ['-'] + id + more
    requires '-' !in core && '+' !in core && '+' !in id && '.' !in id && '+' !in more
    requires more == [] || more[0] == '.'
    ensures FirstPrerelease(version) == Some(id)
  {
    var rest := id + more;
    assert version == core + ['-'] + rest;
    assert '+' !in rest;
    PrereleaseRest(core, rest);
    FirstIdentifier(id, more);
  }

  /** Without build metadata, the pre-release part is everything after the first `-`. */
  lemma PrereleaseRest(core: string, rest: string)
    requires '-' !in core && '+' !in core && '+' !in rest
    ensures FirstPrerelease(core + ['-'] + rest) == Some(Before(rest, '.'))
  {
    var v := core + ['-'] + rest;
    assert '+' !in v;
    BeforeAbsent(v, '+');
    AfterAt(core, '-', rest);
  }

  /** The first `.`-separated identifier of `<id>[.<more>]`. */
  lemma FirstIdentifier(id: string, more: string)
    requires '.' !in id && (more == [] || more[0] == '.')
    ensures Before(id + more, '.') == id
  {
    if more == [] {
      assert id + more == id;
      BeforeAbsent(id, '.');
    } else {
      var tail := more[1..];
      assert more == ['.'] + tail;
      assert id + more == id + ['.'] + tail;
      BeforeAt(id, '.', tail);
    }
  }

  /** `2.0.0` is published as `latest`. */
  lemma ReleaseExample(version: string)
    requires version == "2.0.0"
    ensures Channel(FirstPrerelease(version)) == "latest"
  {
    ReleaseVersionIsLatest(version, "");
  }

  /** `2.0.0-nightly.3` is published as `nightly`. */
  lemma NightlyExample(version: string, id: string)
    requires version == "2.0.0-nightly.3" && id == "nightly"
    ensures Channel(FirstPrerelease(version)) == "nightly"
  {
    PrereleaseIdentifier(version, "2.0.0", id, ".3");
    NightlyWords(id);
  }

  lemma NightlyWords(id: string)
    requires id == "nightly"
    ensures id != "" && Contains(id, "nightly")
  {
    ContainsAt(id, "nightly", 0);
  }

  /** `0.0.0-experimental-1a2b` is published as `experimental`. */
  lemma ExperimentalExample(version: string, id: string)
    requires version == "0.0.0-experimental-1a2b" && id == "experimental-1a2b"
    ensures Channel(FirstPrerelease(version)) == "experimental"
  {
    PrereleaseIdentifier(version, "0.0.0", id, "");
    ExperimentalWords(id);
  }

  lemma ExperimentalWords(id: string)
    requires id == "experimental-1a2b"
    ensures id != "" && !Contains(id, "nightly") && Contains(id, "experimental")
  {
    assert id[..12] == "experimental";
    ContainsAt(id, "experimental", 0);
    NotContains(id, "nightly", 2);
  }

  /** `2.0.0-beta.1` is published as `beta`. */
  lemma BetaExample(version: string, id: string)
    requires version == "2.0.0-beta.1" && id == "beta"
    ensures Channel(FirstPrerelease(version)) == "beta"
  {
    PrereleaseIdentifier(version, "2.0.0", id, ".1");
    BetaWords(id);
  }

  lemma BetaWords(id: string)
    requires id == "beta"
    ensures id != "" && !Contains(id, "nightly") && !Contains(id, "experimental")
  {
    NotContains(id, "nightly", 0);
    NotContains(id, "experimental", 1);
  }

  /** A string lacking one of the characters of `sub` does not contain `sub`. */
  lemma {:induction false} NotContains(s: string, sub: string, k: nat)
    requires k < |sub| && sub[k] !in s
    ensures !Contains(s, sub)
    decreases |s|
  {
    if s != [] {
      NotContains(s[1..], sub, k);
    }
  }

  // ---------------------------------------------------------------------------
  // The publish order.

  /** The packages in publish order: `server-runtime` before the platforms, `node` before its servers, `express` before `serve`. */
  const PublishOrder: seq<string> := [
    "dev", "server-runtime", "cloudflare", "cloudflare-pages", "cloudflare-workers", "deno",
    "node", "architect", "express", "vercel", "netlify", "react", "serve"]

  predicate Precedes(s: seq<string>, a: string, b: string)
  {
    exists i, j :: 0 <= i < j < |s| && s[i] == a && s[j] == b
  }

  lemma PublishOrderShape()
    ensures |PublishOrder| == 13 && Distinct(PublishOrder)
    ensures forall p :: p in PublishOrder <==> p in All && p != "eslint-config"
  {
  }

  lemma PrecedesAt(s: seq<string>, i: nat, j: nat)
    requires i < j < |s|
    ensures Precedes(s, s[i], s[j])
  {
  }

  /** The order the comments in the list ask for. */
  lemma PublishOrderPrecedence()
    ensures forall p :: p in Adapters + Runtimes ==> Precedes(PublishOrder, "server-runtime", p)
    ensures Precedes(PublishOrder, "node", "architect") && Precedes(PublishOrder, "node", "express")
    ensures Precedes(PublishOrder, "node", "vercel") && Precedes(PublishOrder, "node", "netlify")
    ensures Precedes(PublishOrder, "express", "serve")
  {
    forall p | p in Adapters + Runtimes ensures Precedes(PublishOrder, "server-runtime", p) {
      ServerRuntimeFirst(p);
    }
    NodeBeforeServers();
    PrecedesAt(PublishOrder, 8, 12);
  }

  /** `server-runtime` goes out before every adapter and every runtime. */
  lemma ServerRuntimeFirst(p: string)
    requires p in Adapters + Runtimes
    ensures Precedes(PublishOrder, "server-runtime", p)
  {
    var s := PublishOrder;
    var j: nat :=
      if p == "cloudflare" then 2 else if p == "cloudflare-pages" then 3
      else if p == "cloudflare-workers" then 4 else if p == "deno" then 5
      else if p == "node" then 6 else if p == "architect" then 7
      else if p == "express" then 8 else if p == "vercel" then 9 else 10;
    assert s[j] == p;
    PrecedesAt(s, 1, j);
  }

  /** `node` goes out before the servers built on it. */
  lemma NodeBeforeServers()
    ensures Precedes(PublishOrder, "node", "architect") && Precedes(PublishOrder, "node", "express")
    ensures Precedes(PublishOrder, "node", "vercel") && Precedes(PublishOrder, "node", "netlify")
  {
    PrecedesAt(PublishOrder, 6, 7);
    PrecedesAt(PublishOrder, 6, 8);
    PrecedesAt(PublishOrder, 6, 9);
    PrecedesAt(PublishOrder, 6, 10);
  }

  /** The publish order is not the order of `all`, where the adapters come before `server-runtime`. */
  lemma PublishOrderIsNotAll()
    ensures PublishOrder != All
    ensures Precedes(All, "architect", "server-runtime")
  {
    AllShape();
    assert All[0] == "architect" && All[10] == "server-runtime";
    PrecedesAt(All, 0, 10);
  }

  // ---------------------------------------------------------------------------
  // Patching and publishing the built packages.

  /** `<root>/build/node_modules/@remix-run/<name>`, the directory `npm publish` is given. */
  function BuiltDir(name: string): Path
  {
    ["build", "node_modules", Scope, name]
  }

  function BuiltManifest(name: string): (p: Path)
    ensures |p| == 5 && p[..3] == ["build", "node_modules", Scope] && p[3] == name && p[4] == "package.json"
  {
    BuiltDir(name) + ["package.json"]
  }

  const RepositoryUrl: string := "https://github.com/remix-run/packages"

  /**
   * `config.repository = url`: `null` throws a `TypeError`; an object gets
   * the field (in place if it had one, last otherwise); on any other value
   * the assignment has no effect on what is written.
   */
  function RepositoryPatch(config: Json): (r: Result<Json, EditError>)
    ensures r.Err? <==> config.JNull?
    ensures r.Ok? && config.JObject? ==>
              r.value.JObject? && Lookup(r.value.fields, "repository") == Some(JString(RepositoryUrl))
              && (forall k :: k != "repository" ==> Lookup(r.value.fields, k) == Lookup(config.fields, k))
              && Keys(r.value.fields) == if "repository" in Keys(config.fields) then Keys(config.fields)
                                         else Keys(config.fields) + ["repository"]
    ensures r.Ok? && !config.JObject? ==> r.value == config
  {
    match config
    case JNull => Err(TypeError)
    case JObject(fs) => Ok(JObject(Put(fs, "repository", JString(RepositoryUrl))))
    case _ => Ok(config)
  }

  datatype PublishFailure = ManifestUnreadable(error: IoError) | RepositoryTypeError | ManifestReadOnly | NpmFailed

  /** The local `updatePackageConfig`: read, patch, write; any of the three can throw. */
  function PatchSpec(env: Env, w: World, name: string): (r: (World, Option<PublishFailure>))
  {
    var path := BuiltManifest(name);
    match Read(w, path)
    case Err(e) => (w, Some(ManifestUnreadable(e)))
    case Ok(json) =>
      match RepositoryPatch(json)
      case Err(_) => (w, Some(RepositoryTypeError))
      case Ok(patched) =>
        var written := Write(env, w, path, patched);
        if written.1 then (written.0, None) else (w, Some(ManifestReadOnly))
  }

  function PublishCommand(name: string, channel: string): Command
  {
    NpmPublish(BuiltDir(name), channel)
  }

  /** One iteration of the loop: patch the manifest, then `npm publish --tag <channel> <dir>`. */
  function PublishOne(env: Env, w: World, name: string, channel: string): (r: (World, Option<PublishFailure>))
  {
    var patched := PatchSpec(env, w, name);
    if patched.1.Some? then patched
    else
      var published := Run(env, patched.0, PublishCommand(name, channel));
      (published.0, if published.1.Ok? then None else Some(NpmFailed))
  }

  /** The loop: the packages in turn, stopping at the first failure with its index. */
  function PublishAll(env: Env, w: World, names: seq<string>, channel: string)
    : (r: (World, Option<(nat, PublishFailure)>))
    ensures r.1.Some? ==> r.1.value.0 < |names|
    decreases |names|
  {
    if names == [] then (w, None)
    else
      var before := PublishAll(env, w, names[..|names| - 1], channel);
      if before.1.Some? then before
      else
        var one := PublishOne(env, before.0, names[|names| - 1], channel);
        (one.0, if one.1.None? then None else Some((|names| - 1, one.1.value)))
  }

  datatype PublishOutcome =
    | ListTagsFailed
    | MissingVersion
    | Published(channel: string)
    | PublishFailed(channel: string, index: nat, failure: PublishFailure)

  const MissingVersionMessage: string := "Missing release version. Run the version script first."

  /**
   * `run()`: the tagged version, then everything that depends on it. A
   * failing `git tag` throws before anything else happens.
   */
  function PublishRunSpec(env: Env, w: World, order: seq<string>): (r: (World, PublishOutcome))
  {
    var listed := Run(env, w, GitListHeadTags);
    if listed.1.Err? then (listed.0, ListTagsFailed) else PublishVersion(env, listed.0, TaggedVersion(listed.1.value), order)
  }

  /**
   * The rest of `run()` for a tagged version: an empty one is reported and
   * stops the run; otherwise its channel, then the publish loop over `order`
   * (the script's is `PublishOrder`).
   */
  function PublishVersion(env: Env, w: World, version: string, order: seq<string>): (r: (World, PublishOutcome))
  {
    if version == "" then (Say(w, Stderr(MissingVersionMessage)), MissingVersion)
    else
      var channel := Channel(FirstPrerelease(version));
      var published := PublishAll(env, w, order, channel);
      (published.0,
       if published.1.None? then Published(channel)
       else PublishFailed(channel, published.1.value.0, published.1.value.1))
  }

  // ---------------------------------------------------------------------------
  // What the loop does.

  /**
   * One package: the publish command is issued only once the patched
   * manifest has been written, and nothing but that manifest and the log
   * changes.
   */
  lemma PublishOneEffect(env: Env, w: World, name: string, channel: string)
    ensures var r := PublishOne(env, w, name, channel);
            var path := BuiltManifest(name);
            var written := Read(w, path).Ok? && RepositoryPatch(Read(w, path).value).Ok? && path !in env.readOnly;
            (r.1.None? || r.1 == Some(NpmFailed) <==> written)
            && (written ==>
                  Read(r.0, path) == Ok(RepositoryPatch(Read(w, path).value).value)
                  && r.0.commands == w.commands + [Exec(PublishCommand(name, channel), r.1.None?)]
                  && (r.1.None? <==> PublishCommand(name, channel) !in env.failing))
            && (!written ==> r.0 == w)
            && (forall p :: p != path ==> Read(r.0, p) == Read(w, p))
            && r.0.console == w.console
  {
  }

  /** How many packages were published before the loop stopped. */
  function Done(r: Option<(nat, PublishFailure)>, names: seq<string>): nat
  {
    if r.None? then |names| else r.value.0
  }

  /** The publish commands for the given packages, all successful, all on one channel. */
  function PublishCommands(names: seq<string>, channel: string): (cs: seq<Exec>)
    ensures |cs| == |names|
    ensures forall k :: 0 <= k < |names| ==> cs[k] == Exec(PublishCommand(names[k], channel), true)
  {
    seq(|names|, k requires 0 <= k < |names| => Exec(PublishCommand(names[k], channel), true))
  }

  /**
   * The publish commands a loop over `names` that stopped at `stop` has run:
   * one successful publish per package before the stop, then the failed
   * publish if the stop was `npm publish` itself.
   */
  function PublishLog(names: seq<string>, stop: Option<(nat, PublishFailure)>, channel: string): seq<Exec>
    requires stop.Some? ==> stop.value.0 < |names|
  {
    var done := Done(stop, names);
    PublishCommands(names[..done], channel)
    + (if stop.Some? && stop.value.1 == NpmFailed then [Exec(PublishCommand(names[done], channel), false)] else [])
  }

  /** A package published after an earlier clean run extends the log by its successful publish. */
  lemma PublishLogAppend(init: seq<string>, last: string, channel: string)
    ensures PublishLog(init + [last], None, channel)
            == PublishLog(init, None, channel) + [Exec(PublishCommand(last, channel), true)]
  {
    var names := init + [last];
    assert names[..|names|] == names;
    assert init[..|init|] == init;
  }

  /** A package failing after an earlier clean run adds its failed publish, if it got that far. */
  lemma PublishLogFails(init: seq<string>, last: string, f: PublishFailure, channel: string)
    ensures PublishLog(init + [last], Some((|init|, f)), channel)
            == PublishLog(init, None, channel)
               + (if f == NpmFailed then [Exec(PublishCommand(last, channel), false)] else [])
  {
    var names := init + [last];
    assert names[..|init|] == init;
    assert init[..|init|] == init;
    assert names[|init|] == last;
  }

  /** After the loop has stopped, later packages add nothing. */
  lemma PublishLogStopped(init: seq<string>, last: string, stop: (nat, PublishFailure), channel: string)
    requires stop.0 < |init|
    ensures PublishLog(init + [last], Some(stop), channel) == PublishLog(init, Some(stop), channel)
  {
    var names := init + [last];
    assert names[..stop.0] == init[..stop.0];
    assert names[stop.0] == init[stop.0];
  }

  /**
   * Fail-fast, in list order, on one channel: the packages before the
   * failing one are each published once, the failing one's publish (if it
   * got that far) is the last command, and nothing after it is run.
   */
  lemma {:induction false} PublishAllCommands(env: Env, w: World, names: seq<string>, channel: string)
    ensures var r := PublishAll(env, w, names, channel);
            r.0.commands == w.commands + PublishLog(names, r.1, channel)
            && r.0.console == w.console && r.0.headTags == w.headTags
    decreases |names|
  {
    if names != [] {
      var init := names[..|names| - 1];
      var last := names[|names| - 1];
      assert names == init + [last];
      PublishAllCommands(env, w, init, channel);
      var before := PublishAll(env, w, init, channel);
      if before.1.None? {
        PublishOneCommands(env, before.0, last, channel);
        var one := PublishOne(env, before.0, last, channel);
        if one.1.None? {
          PublishLogAppend(init, last, channel);
        } else {
          PublishLogFails(init, last, one.1.value, channel);
        }
      } else {
        PublishLogStopped(init, last, before.1.value, channel);
      }
    }
  }

  /** What one package adds to the effect log: its publish, if the manifest was written. */
  lemma PublishOneCommands(env: Env, w: World, name: string, channel: string)
    ensures var r := PublishOne(env, w, name, channel);
            var command := PublishCommand(name, channel);
            r.0.console == w.console && r.0.headTags == w.headTags
            && (r.1.None? ==> r.0.commands == w.commands + [Exec(command, true)])
            && (r.1 == Some(NpmFailed) ==> r.0.commands == w.commands + [Exec(command, false)])
            && (r.1.Some? && r.1 != Some(NpmFailed) ==> r.0.commands == w.commands)
  {
  }

  function BuiltManifests(names: seq<string>): (ps: seq<Path>)
    ensures |ps| == |names|
    ensures forall k :: 0 <= k < |names| ==> ps[k] == BuiltManifest(names[k])
  {
    seq(|names|, k requires 0 <= k < |names| => BuiltManifest(names[k]))
  }

  /**
   * On disk: each package before the stop holds its patched manifest,
   * computed from the original; the packages after the stop and every
   * other file are untouched.
   */
  lemma {:induction false} PublishAllFiles(env: Env, w: World, names: seq<string>, channel: string)
    requires Distinct(names)
    ensures var r := PublishAll(env, w, names, channel);
            var done := Done(r.1, names);
            (forall k :: 0 <= k < done ==>
               Read(w, BuiltManifest(names[k])).Ok? && RepositoryPatch(Read(w, BuiltManifest(names[k])).value).Ok?
               && Read(r.0, BuiltManifest(names[k])) == Ok(RepositoryPatch(Read(w, BuiltManifest(names[k])).value).value))
            && (forall k :: done < k < |names| ==> Read(r.0, BuiltManifest(names[k])) == Read(w, BuiltManifest(names[k])))
            && (forall p :: p !in BuiltManifests(names) ==> Read(r.0, p) == Read(w, p))
    decreases |names|
  {
    if names != [] {
      var init := names[..|names| - 1];
      var last := names[|names| - 1];
      DistinctInit(names);
      PublishAllFiles(env, w, init, channel);
      var before := PublishAll(env, w, init, channel);
      var path := BuiltManifest(last);
      assert path !in BuiltManifests(init) by {
        forall k | 0 <= k < |init| ensures BuiltManifests(init)[k] != path {
          assert init[k] == names[k];
          assert BuiltManifest(init[k])[3] == init[k];
        }
      }
      assert BuiltManifests(names) == BuiltManifests(init) + [path];
      if before.1.None? {
        PublishOneEffect(env, before.0, last, channel);
        forall k | 0 <= k < |init| ensures BuiltManifest(names[k]) != path {
          assert names[k] == init[k];
          assert BuiltManifest(names[k])[3] == names[k];
        }
      } else {
        forall k | before.1.value.0 < k < |names| - 1
          ensures Read(before.0, BuiltManifest(names[k])) == Read(w, BuiltManifest(names[k]))
        {
          assert names[k] == init[k];
        }
      }
    }
  }

  /**
   * A reported failure at index `i` is the failure of `names[i]` itself,
   * reached after every package before it went through.
   */
  lemma {:induction false} PublishAllFailure(env: Env, w: World, names: seq<string>, channel: string)
    requires PublishAll(env, w, names, channel).1.Some?
    ensures var r := PublishAll(env, w, names, channel);
            var i := r.1.value.0;
            var pre := PublishAll(env, w, names[..i], channel);
            pre.1.None? && PublishOne(env, pre.0, names[i], channel) == (r.0, Some(r.1.value.1))
    decreases |names|
  {
    var init := names[..|names| - 1];
    var before := PublishAll(env, w, init, channel);
    if before.1.Some? {
      PublishAllFailure(env, w, init, channel);
      var i := before.1.value.0;
      assert init[..i] == names[..i];
      assert init[i] == names[i];
    }
  }

  /**
   * The manifest of the package the loop stopped at: patched when `npm
   * publish` was what failed, as it was when the read, the patch or the
   * write failed.
   */
  lemma FailedPackageManifest(env: Env, w: World, names: seq<string>, channel: string)
    requires Distinct(names) && PublishAll(env, w, names, channel).1.Some?
    ensures var r := PublishAll(env, w, names, channel);
            var path := BuiltManifest(names[r.1.value.0]);
            if r.1.value.1 == NpmFailed then
              Read(w, path).Ok? && RepositoryPatch(Read(w, path).value).Ok?
              && Read(r.0, path) == Ok(RepositoryPatch(Read(w, path).value).value)
            else Read(r.0, path) == Read(w, path)
  {
    var r := PublishAll(env, w, names, channel);
    var i := r.1.value.0;
    var prefix := names[..i];
    PublishAllFailure(env, w, names, channel);
    var pre := PublishAll(env, w, prefix, channel);
    var path := BuiltManifest(names[i]);
    assert Distinct(prefix) by {
      forall a, b | 0 <= a < b < |prefix| ensures prefix[a] != prefix[b] {
        assert prefix[a] == names[a] && prefix[b] == names[b];
      }
    }
    assert path !in BuiltManifests(prefix) by {
      forall k | 0 <= k < |prefix| ensures BuiltManifests(prefix)[k] != path {
        assert prefix[k] == names[k];
        assert BuiltManifest(prefix[k])[3] == names[k];
      }
    }
    PublishAllFiles(env, w, prefix, channel);
    assert Read(pre.0, path) == Read(w, path);
    PublishOneEffect(env, pre.0, names[i], channel);
  }

  /** The run reads the tags at `HEAD` and goes on with the version they give. */
  lemma PublishRunUnfold(env: Env, w: World, order: seq<string>)
    requires GitListHeadTags !in env.failing
    ensures var listed := Run(env, w, GitListHeadTags).0;
            listed.commands == w.commands + [Exec(GitListHeadTags, true)]
            && listed.files == w.files && listed.console == w.console
            && PublishRunSpec(env, w, order) == PublishVersion(env, listed, TaggedVersion(TagListing(w.headTags)), order)
  {
    assert Run(env, w, GitListHeadTags).1 == Ok(TagListing(w.headTags));
  }

  /** An empty tagged version stops the run before any manifest update or publish. */
  lemma MissingVersionTouchesNothing(env: Env, w: World, order: seq<string>)
    requires GitListHeadTags !in env.failing && TaggedVersion(TagListing(w.headTags)) == ""
    ensures var r := PublishRunSpec(env, w, order);
            r.1 == MissingVersion && r.0.files == w.files
            && r.0.commands == w.commands + [Exec(GitListHeadTags, true)]
            && r.0.console == w.console + [Stderr(MissingVersionMessage)]
  {
    PublishRunUnfold(env, w, order);
  }

  /**
   * With a version at `HEAD`, every publish goes to the channel derived from
   * it, in the given order, after the tag listing.
   */
  lemma PublishRunCommands(env: Env, w: World, order: seq<string>)
    requires GitListHeadTags !in env.failing && TaggedVersion(TagListing(w.headTags)) != ""
    ensures var r := PublishRunSpec(env, w, order);
            var channel := Channel(FirstPrerelease(TaggedVersion(TagListing(w.headTags))));
            var pub := PublishAll(env, Run(env, w, GitListHeadTags).0, order, channel);
            (pub.1.None? ==> r.1 == Published(channel))
            && (pub.1.Some? ==> r.1 == PublishFailed(channel, pub.1.value.0, pub.1.value.1))
            && r.0.commands == w.commands + [Exec(GitListHeadTags, true)] + PublishLog(order, pub.1, channel)
  {
    PublishRunUnfold(env, w, order);
    var channel := Channel(FirstPrerelease(TaggedVersion(TagListing(w.headTags))));
    PublishAllCommands(env, Run(env, w, GitListHeadTags).0, order, channel);
  }

  /** Whatever happens to the packages, the run reports the channel the tagged version names. */
  lemma PublishRunChannel(env: Env, w: World, order: seq<string>)
    requires GitListHeadTags !in env.failing && TaggedVersion(TagListing(w.headTags)) != ""
    ensures var r := PublishRunSpec(env, w, order);
            var channel := Channel(FirstPrerelease(TaggedVersion(TagListing(w.headTags))));
            r.1 == Published(channel) || (r.1.PublishFailed? && r.1.channel == channel)
  {
    PublishRunUnfold(env, w, order);
  }

  /** A checkout where exactly the release tag of `v` points at `HEAD` publishes on `v`'s channel. */
  lemma TaggedReleasePublishes(env: Env, w: World, v: string, order: seq<string>)
    requires w.headTags == ["v" + v]
    requires v != "" && !IsJsWhitespace(v[|v| - 1])
    ensures TaggedVersion(TagListing(w.headTags)) == v
    ensures GitListHeadTags !in env.failing ==>
              var r := PublishRunSpec(env, w, order);
              r.1 == Published(Channel(FirstPrerelease(v)))
              || (r.1.PublishFailed? && r.1.channel == Channel(FirstPrerelease(v)))
  {
    TaggedVersionRoundTrip(v);
    if GitListHeadTags !in env.failing {
      PublishRunChannel(env, w, order);
    }
  }

  /**
   * The two scripts together: after a complete release of version `v`, the
   * publish script reads `v` back and publishes on the channel `v` names.
   */
  lemma ReleaseThenPublish(env: Env, w: World, v: string, order: seq<string>)
    requires Release.ReleaseSpec(env, w, v).1 == Release.Released
    requires v != "" && !IsJsWhitespace(v[|v| - 1])
    ensures var released := Release.ReleaseSpec(env, w, v).0;
            TaggedVersion(TagListing(released.headTags)) == v
            && (GitListHeadTags !in env.failing ==>
                  var r := PublishRunSpec(env, released, order);
                  r.1 == Published(Channel(FirstPrerelease(v)))
                  || (r.1.PublishFailed? && r.1.channel == Channel(FirstPrerelease(v))))
  {
    var released := Release.ReleaseSpec(env, w, v).0;
    Release.ReleaseCommands(env, w, v);
    assert released.headTags == ["v" + v];
    TaggedReleasePublishes(env, released, v, order);
  }

  // ---------------------------------------------------------------------------
  // The script, step by step on the checkout.

  /** The local `updatePackageConfig` with the repository patch. */
  method PatchRepository(ws: Workspace, name: string) returns (failure: Option<PublishFailure>)
    modifies ws
    ensures (ws.State(), failure) == PatchSpec(ws.env, old(ws.State()), name)
  {
    var path := BuiltManifest(name);
    var read := ws.ReadJson(path);
    if read.Err? {
      return Some(ManifestUnreadable(read.error));
    }
    var patched := RepositoryPatch(read.value);
    if patched.Err? {
      return Some(RepositoryTypeError);
    }
    var ok := ws.WriteJson(path, patched.value);
    failure := if ok then None else Some(ManifestReadOnly);
  }

  /** One iteration of the loop: patch the package's manifest, then publish it. */
  method PublishPackage(ws: Workspace, name: string, channel: string) returns (failure: Option<PublishFailure>)
    modifies ws
    ensures (ws.State(), failure) == PublishOne(ws.env, old(ws.State()), name, channel)
  {
    failure := PatchRepository(ws, name);
    if failure.None? {
      var published := ws.ExecSync(PublishCommand(name, channel));
      if published.Err? {
        failure := Some(NpmFailed);
      }
    }
  }

  /** The `for ... of` loop: patch and publish each package in turn; the first failure ends the run. */
  method PublishPackages(ws: Workspace, names: seq<string>, channel: string)
    returns (failure: Option<(nat, PublishFailure)>)
    modifies ws
    ensures (ws.State(), failure) == PublishAll(ws.env, old(ws.State()), names, channel)
  {
    ghost var w := ws.State();
    for i := 0 to |names|
      invariant (ws.State(), None) == PublishAll(ws.env, w, names[..i], channel)
    {
      var one := PublishPackage(ws, names[i], channel);
      PublishAllSnoc(ws.env, w, names, i, channel);
      if one.Some? {
        failure := Some((i, one.value));
        PublishAllStops(ws.env, w, names, i + 1, channel);
        return;
      }
    }
    assert names[..|names|] == names;
    failure := None;
  }

  /** After a prefix that went through, the next package's iteration decides the outcome. */
  lemma PublishAllSnoc(env: Env, w: World, names: seq<string>, i: nat, channel: string)
    requires i < |names| && PublishAll(env, w, names[..i], channel).1.None?
    ensures var one := PublishOne(env, PublishAll(env, w, names[..i], channel).0, names[i], channel);
            PublishAll(env, w, names[..i + 1], channel)
            == (one.0, if one.1.None? then None else Some((i, one.1.value)))
  {
    assert names[..i + 1][..i] == names[..i];
  }

  /** Once the loop has stopped, the packages after the stop change nothing. */
  lemma {:induction false} PublishAllStops(env: Env, w: World, names: seq<string>, n: nat, channel: string)
    requires n <= |names| && PublishAll(env, w, names[..n], channel).1.Some?
    ensures PublishAll(env, w, names, channel) == PublishAll(env, w, names[..n], channel)
    decreases |names| - n
  {
    if n < |names| {
      assert names[..n + 1][..n] == names[..n];
      PublishAllStops(env, w, names, n + 1, channel);
    } else {
      assert names[..n] == names;
    }
  }

  /** `run()` with its outcome. */
  method RunPublish(ws: Workspace) returns (outcome: PublishOutcome)
    modifies ws
    ensures (ws.State(), outcome) == PublishRunSpec(ws.env, old(ws.State()), PublishOrder)
  {
    var listed := ws.ExecSync(GitListHeadTags);
    if listed.Err? {
      return ListTagsFailed;
    }
    var version := TaggedVersion(listed.value);
    if version == "" {
      ws.Log(Stderr(MissingVersionMessage));
      return MissingVersion;
    }
    var channel := Channel(FirstPrerelease(version));
    var failure := PublishPackages(ws, PublishOrder, channel);
    outcome := if failure.None? then Published(channel) else PublishFailed(channel, failure.value.0, failure.value.1);
  }
}
