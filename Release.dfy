/**
 * `incrementRemixVersion` and the steps it is made of: bump every release
 * manifest, rewrite the two Deno import maps, pin the deployment script,
 * then commit and tag.
 */
module Release {
  import opened Wrappers
  import opened Strings
  import opened JsonValues
  import opened Packages
  import opened Manifests
  import opened ImportMaps
  import opened Repository

  // ---------------------------------------------------------------------------
  // `updatePackageConfig` and `updateRemixVersion`.

  datatype SkipReason = ReadFailed(error: IoError) | Falsy | WriteFailed
  datatype UpdateOutcome = Written | Skipped(reason: SkipReason)

  function ManifestPath(packageName: string): Path
  {
    PackageJson(packageName, "packages")
  }

  function SkippingLine(packageName: string): string
  {
    "No package.json found for " + packageName + "; skipping"
  }

  /**
   * Read the manifest, give up quietly if that throws, report and skip a
   * falsy document, otherwise write back the transformed document; a write
   * that throws is swallowed too.
   */
  function UpdatePackageConfigSpec(env: Env, w: World, packageName: string, transform: Json -> Json)
    : (r: (World, UpdateOutcome))
  {
    var path := ManifestPath(packageName);
    match Read(w, path)
    case Err(e) => (w, Skipped(ReadFailed(e)))
    case Ok(json) =>
      if !Truthy(json) then (Say(w, Stdout(SkippingLine(packageName))), Skipped(Falsy))
      else
        var written := Write(env, w, path, transform(json));
        (written.0, if written.1 then Written else Skipped(WriteFailed))
  }

  /** The manifest after `updatePackageConfig`: transformed when it was read, truthy and writable. */
  function AfterUpdate(env: Env, w: World, path: Path, transform: Json -> Json): Result<Json, IoError>
  {
    var before := Read(w, path);
    if before.Ok? && Truthy(before.value) && path !in env.readOnly then Ok(transform(before.value))
    else before
  }

  /** The lines `updatePackageConfig` prints: the skip notice for a falsy manifest only. */
  function SkipLines(w: World, packageName: string): seq<ConsoleLine>
  {
    var before := Read(w, ManifestPath(packageName));
    if before.Ok? && !Truthy(before.value) then [Stdout(SkippingLine(packageName))] else []
  }

  /**
   * No error reaches the caller: the outcome only reports what happened. No
   * command runs, only the package's own manifest can change, and the
   * console gains at most the skip notice.
   */
  lemma UpdatePackageConfigEffect(env: Env, w: World, packageName: string, transform: Json -> Json)
    ensures var r := UpdatePackageConfigSpec(env, w, packageName, transform);
            var path := ManifestPath(packageName);
            r.0.commands == w.commands && r.0.headTags == w.headTags
            && r.0.console == w.console + SkipLines(w, packageName)
            && Read(r.0, path) == AfterUpdate(env, w, path, transform)
            && (forall p :: p != path ==> Read(r.0, p) == Read(w, p))
            && (r.1.Written? <==> Read(w, path).Ok? && Truthy(Read(w, path).value) && path !in env.readOnly)
            && (r.1 == Skipped(Falsy) <==> Read(w, path).Ok? && !Truthy(Read(w, path).value))
  {
  }

  /** A missing or unreadable manifest is skipped without any write, any output or any error. */
  lemma MissingManifestSkipped(env: Env, w: World, packageName: string, transform: Json -> Json)
    requires Read(w, ManifestPath(packageName)).Err?
    ensures UpdatePackageConfigSpec(env, w, packageName, transform)
            == (w, Skipped(ReadFailed(Read(w, ManifestPath(packageName)).error)))
  {
  }

  /** `updateRemixVersion`: the bump through `updatePackageConfig`, then the `Updated …` line, whatever happened. */
  function UpdateRemixVersionSpec(env: Env, w: World, packageName: string, next: string, successMessage: string)
    : (r: World)
  {
    var updated := UpdatePackageConfigSpec(env, w, packageName, RemixVersionTransform(next));
    Say(updated.0, Stdout(UpdatedLine(packageName, next, successMessage)))
  }

  /** The packages `incrementRemixVersion` bumps, in order: `remix`, `create-remix`, then `remix-<name>` in `all` order. */
  function ReleaseTargets(): (r: seq<string>)
  {
    ["remix", "create-remix"] + RemixDirs(All)
  }

  function RemixDirs(names: seq<string>): (r: seq<string>)
    ensures |r| == |names|
    decreases |names|
  {
    if names == [] then [] else ["remix-" + names[0]] + RemixDirs(names[1..])
  }

  /** `updateRemixVersion(name, next)` for each name in turn. */
  function UpdateTargets(env: Env, w: World, names: seq<string>, next: string): (r: World)
    decreases |names|
  {
    if names == [] then w
    else UpdateRemixVersionSpec(env, UpdateTargets(env, w, names[..|names| - 1], next), names[|names| - 1], next, "")
  }

  /** For each name in turn, the skip notice if its manifest is falsy, then its `Updated …` line. */
  function TargetLines(w: World, names: seq<string>, next: string): seq<ConsoleLine>
    decreases |names|
  {
    if names == [] then []
    else
      var last := names[|names| - 1];
      TargetLines(w, names[..|names| - 1], next) + SkipLines(w, last) + [Stdout(UpdatedLine(last, next, ""))]
  }

  /** One `updateRemixVersion`: its manifest bumped or untouched, the other files kept, its lines printed. */
  lemma UpdateRemixVersionEffect(env: Env, w: World, packageName: string, next: string)
    ensures var r := UpdateRemixVersionSpec(env, w, packageName, next, "");
            var path := ManifestPath(packageName);
            r.commands == w.commands && r.headTags == w.headTags
            && r.console == w.console + SkipLines(w, packageName) + [Stdout(UpdatedLine(packageName, next, ""))]
            && Read(r, path) == AfterUpdate(env, w, path, RemixVersionTransform(next))
            && (forall p :: p != path ==> Read(r, p) == Read(w, p))
  {
    UpdatePackageConfigEffect(env, w, packageName, RemixVersionTransform(next));
  }

  /** `updateRemixVersion` writes only a bumped document, so the files stay as `JSON.parse` gives them. */
  lemma UpdateRemixVersionParsed(env: Env, w: World, packageName: string, next: string, successMessage: string)
    requires Parsed(w)
    ensures Parsed(UpdateRemixVersionSpec(env, w, packageName, next, successMessage))
  {
    var read := Read(w, ManifestPath(packageName));
    if read.Ok? {
      RemixVersionEditWellFormed(read.value, next);
    }
  }

  lemma {:induction false} UpdateTargetsParsed(env: Env, w: World, names: seq<string>, next: string)
    requires Parsed(w)
    ensures Parsed(UpdateTargets(env, w, names, next))
    decreases |names|
  {
    if names != [] {
      UpdateTargetsParsed(env, w, names[..|names| - 1], next);
      UpdateRemixVersionParsed(env, UpdateTargets(env, w, names[..|names| - 1], next), names[|names| - 1], next, "");
    }
  }

  /** Bumping packages in turn changes no file but their manifests. */
  lemma {:induction false} UpdateTargetsElsewhere(env: Env, w: World, names: seq<string>, next: string)
    ensures forall p :: p !in ManifestPaths(names) ==> Read(UpdateTargets(env, w, names, next), p) == Read(w, p)
    decreases |names|
  {
    if names != [] {
      var init := names[..|names| - 1];
      var last := names[|names| - 1];
      UpdateTargetsElsewhere(env, w, init, next);
      UpdateRemixVersionEffect(env, UpdateTargets(env, w, init, next), last, next);
      ManifestPathsSnoc(init, last);
      assert names == init + [last];
    }
  }

  /**
   * Bumping distinct packages in turn: each manifest ends as one bump of its
   * original content, or untouched.
   */
  lemma {:induction false} UpdateTargetsFiles(env: Env, w: World, names: seq<string>, next: string)
    requires Distinct(names)
    ensures forall i :: 0 <= i < |names| ==>
              Read(UpdateTargets(env, w, names, next), ManifestPath(names[i]))
              == AfterUpdate(env, w, ManifestPath(names[i]), RemixVersionTransform(next))
    decreases |names|
  {
    if names != [] {
      var init := names[..|names| - 1];
      var last := names[|names| - 1];
      DistinctInit(names);
      UpdateTargetsFiles(env, w, init, next);
      UpdateTargetsElsewhere(env, w, init, next);
      var mid := UpdateTargets(env, w, init, next);
      LastPathFresh(names);
      var path := ManifestPath(last);
      var t := RemixVersionTransform(next);
      assert Read(mid, path) == Read(w, path);
      UpdateRemixVersionEffect(env, mid, last, next);
      var r := UpdateTargets(env, w, names, next);
      assert r == UpdateRemixVersionSpec(env, mid, last, next, "");
      assert Read(r, path) == AfterUpdate(env, mid, path, t);
      assert AfterUpdate(env, mid, path, t) == AfterUpdate(env, w, path, t);
      forall i | 0 <= i < |names|
        ensures Read(r, ManifestPath(names[i])) == AfterUpdate(env, w, ManifestPath(names[i]), t)
      {
        if i < |init| {
          assert names[i] == init[i];
          PackageJsonDistinct(names, i, |names| - 1);
          assert Read(r, ManifestPath(names[i])) == Read(mid, ManifestPath(names[i]));
        }
      }
    }
  }

  /** In a list of distinct names, the last name's manifest is none of the earlier ones. */
  lemma LastPathFresh(names: seq<string>)
    requires Distinct(names) && names != []
    ensures ManifestPath(names[|names| - 1]) !in ManifestPaths(names[..|names| - 1])
  {
    var init := names[..|names| - 1];
    var path := ManifestPath(names[|names| - 1]);
    if path in ManifestPaths(init) {
      var j := ManifestPathsIndex(init, path);
    }
  }

  /** Bumping distinct packages runs no command and prints their lines in the order of the names. */
  lemma {:induction false} UpdateTargetsLog(env: Env, w: World, names: seq<string>, next: string)
    requires Distinct(names)
    ensures var r := UpdateTargets(env, w, names, next);
            r.commands == w.commands && r.headTags == w.headTags
            && r.console == w.console + TargetLines(w, names, next)
    decreases |names|
  {
    if names != [] {
      var init := names[..|names| - 1];
      var last := names[|names| - 1];
      DistinctInit(names);
      UpdateTargetsLog(env, w, init, next);
      UpdateTargetsElsewhere(env, w, init, next);
      var mid := UpdateTargets(env, w, init, next);
      LastPathFresh(names);
      assert Read(mid, ManifestPath(last)) == Read(w, ManifestPath(last));
      assert SkipLines(mid, last) == SkipLines(w, last);
      UpdateRemixVersionEffect(env, mid, last, next);
      assert UpdateTargets(env, w, names, next) == UpdateRemixVersionSpec(env, mid, last, next, "");
      assert TargetLines(w, names, next) == TargetLines(w, init, next) + SkipLines(w, last) + [Stdout(UpdatedLine(last, next, ""))];
    }
  }

  function ManifestPaths(names: seq<string>): (r: seq<Path>)
    ensures |r| == |names|
    ensures forall i :: 0 <= i < |names| ==> r[i] == ManifestPath(names[i])
  {
    seq(|names|, i requires 0 <= i < |names| => ManifestPath(names[i]))
  }

  lemma ManifestPathsIndex(names: seq<string>, p: Path) returns (j: nat)
    requires p in ManifestPaths(names)
    ensures j < |names| && p == ManifestPath(names[j])
  {
    var ps := ManifestPaths(names);
    var k :| 0 <= k < |ps| && ps[k] == p;
    j := k;
  }

  lemma ManifestPathsSnoc(names: seq<string>, n: string)
    ensures ManifestPaths(names + [n]) == ManifestPaths(names) + [ManifestPath(n)]
  {
  }

  lemma PackageJsonDistinct(names: seq<string>, i: nat, j: nat)
    requires Distinct(names) && i < j < |names|
    ensures ManifestPath(names[i]) != ManifestPath(names[j])
  {
    if ManifestPath(names[i]) == ManifestPath(names[j]) {
      PackageJsonInjective(names[i], names[j], "packages");
    }
  }

  /** The sixteen release targets are different packages, `remix` and `create-remix` first. */
  lemma ReleaseTargetsShape()
    ensures |ReleaseTargets()| == 16
    ensures ReleaseTargets()[0] == "remix" && ReleaseTargets()[1] == "create-remix"
    ensures forall i :: 0 <= i < |All| ==> ReleaseTargets()[i + 2] == "remix-" + All[i]
    ensures Distinct(ReleaseTargets())
  {
    AllShape();
    var ds := RemixDirs(All);
    forall i | 0 <= i < |All| ensures ds[i] == "remix-" + All[i] {
      RemixDirsAt(All, i);
    }
    var ts := ReleaseTargets();
    forall i, j | 0 <= i < j < |ts| ensures ts[i] != ts[j] {
      if i >= 2 {
        assert ts[i] == "remix-" + All[i - 2] && ts[j] == "remix-" + All[j - 2];
        assert ts[i][6..] == All[i - 2] && ts[j][6..] == All[j - 2];
      } else if i == 1 {
        assert ts[j] == "remix-" + All[j - 2];
        assert ts[j][0] == 'r';
      } else if j == 1 {
        assert ts[0] == "remix" && ts[1] == "create-remix";
      } else {
        assert ts[j] == "remix-" + All[j - 2];
        assert |ts[j]| > 5;
      }
    }
  }

  lemma {:induction false} RemixDirsAt(names: seq<string>, i: nat)
    requires i < |names|
    ensures RemixDirs(names)[i] == "remix-" + names[i]
    decreases i
  {
    if i > 0 {
      RemixDirsAt(names[1..], i - 1);
    }
  }

  lemma RemixDirsPrefix(names: seq<string>, i: nat)
    requires i < |names|
    ensures RemixDirs(names[..i + 1]) == RemixDirs(names[..i]) + ["remix-" + names[i]]
  {
    var a := RemixDirs(names[..i + 1]);
    var b := RemixDirs(names[..i]) + ["remix-" + names[i]];
    forall k | 0 <= k < |a| ensures a[k] == b[k] {
      RemixDirsAt(names[..i + 1], k);
      if k < i {
        RemixDirsAt(names[..i], k);
      }
    }
  }

  // ---------------------------------------------------------------------------
  // `updateDenoImportMap` and `updateDeploymentScriptVersion`.

  const ImportMapPaths: seq<Path> :=
    [[".vscode", "deno_resolve_npm_imports.json"], ["templates", "deno", ".vscode", "resolve_npm_imports.json"]]

  /** Read the import map, rewrite it, write it back; a read, a `TypeError` or a write that throws fails the step. */
  function UpdateDenoImportMapSpec(env: Env, w: World, path: Path, next: string): (r: (World, bool))
    ensures r.1 <==> Read(w, path).Ok? && UpdatedImportMap(Read(w, path).value, next).Ok? && path !in env.readOnly
    ensures r.1 ==> Read(r.0, path) == Ok(UpdatedImportMap(Read(w, path).value, next).value)
    ensures !r.1 ==> r.0 == w
    ensures forall p :: p != path ==> Read(r.0, p) == Read(w, p)
    ensures r.0.commands == w.commands && r.0.headTags == w.headTags && r.0.console == w.console
  {
    match Read(w, path)
    case Err(_) => (w, false)
    case Ok(doc) =>
      match UpdatedImportMap(doc, next)
      case Err(_) => (w, false)
      case Ok(updated) => Write(env, w, path, updated)
  }

  const DeploymentPath: Path := PackageJson("deployment-test", "scripts")

  function DeploymentLine(next: string): string
  {
    "  Updated Remix to version " + next + " in scripts/deployment-test"
  }

  /** Pin `@remix-run/dev` in the deployment script's manifest, then report it; any throw fails the step before the report. */
  function UpdateDeploymentScriptVersionSpec(env: Env, w: World, next: string): (r: (World, bool))
    ensures r.1 <==> Read(w, DeploymentPath).Ok? && DeploymentEdit(Read(w, DeploymentPath).value, next).Ok?
                     && DeploymentPath !in env.readOnly
    ensures r.1 ==> Read(r.0, DeploymentPath) == Ok(DeploymentEdit(Read(w, DeploymentPath).value, next).value)
                    && r.0.console == w.console + [Stdout(DeploymentLine(next))]
    ensures !r.1 ==> r.0 == w
    ensures forall p :: p != DeploymentPath ==> Read(r.0, p) == Read(w, p)
    ensures r.0.commands == w.commands && r.0.headTags == w.headTags
  {
    match Read(w, DeploymentPath)
    case Err(_) => (w, false)
    case Ok(json) =>
      match DeploymentEdit(json, next)
      case Err(_) => (w, false)
      case Ok(edited) =>
        var written := Write(env, w, DeploymentPath, edited);
        if written.1 then (Say(written.0, Stdout(DeploymentLine(next))), true) else (w, false)
  }

  // ---------------------------------------------------------------------------
  // `incrementRemixVersion`.

  datatype ReleaseOutcome = Released | ImportMapFailed | DeploymentScriptFailed | CommitFailed | TagFailed

  function CommitMessage(next: string): string
  {
    "Version " + next
  }

  function TagName(next: string): string
  {
    "v" + next
  }

  function TaggedLine(next: string): string
  {
    "  Committed and tagged version " + next
  }

  /**
   * The whole sequence: every manifest bumped, then the import maps, the
   * deployment script, the commit and the tag; the first step that throws
   * ends the release.
   */
  function ReleaseSpec(env: Env, w: World, next: string): (r: (World, ReleaseOutcome))
  {
    AfterBump(env, UpdateTargets(env, w, ReleaseTargets(), next), next)
  }

  /** Whether `updateDenoImportMap` on `path` succeeds: read, rewritten and written. */
  predicate ImportMapRewritable(env: Env, w: World, path: Path, next: string)
  {
    Read(w, path).Ok? && UpdatedImportMap(Read(w, path).value, next).Ok? && path !in env.readOnly
  }

  /**
   * `Promise.all` over the two import maps: both rewrites are started and
   * the step fails if either throws. The model lets both finish, so each map
   * that can be rewritten is; once one has thrown, `utils.js` no longer
   * awaits the other, which then finishes only if the process stays alive.
   */
  function UpdateImportMapsSpec(env: Env, w: World, next: string): (r: (World, bool))
    ensures r.1 <==> ImportMapRewritable(env, w, ImportMapPaths[0], next)
                     && ImportMapRewritable(env, w, ImportMapPaths[1], next)
    ensures forall k :: 0 <= k < 2 ==>
              Read(r.0, ImportMapPaths[k])
              == if ImportMapRewritable(env, w, ImportMapPaths[k], next)
                 then Ok(UpdatedImportMap(Read(w, ImportMapPaths[k]).value, next).value)
                 else Read(w, ImportMapPaths[k])
    ensures forall p :: p !in ImportMapPaths ==> Read(r.0, p) == Read(w, p)
    ensures r.0.commands == w.commands && r.0.headTags == w.headTags && r.0.console == w.console
  {
    var map1 := UpdateDenoImportMapSpec(env, w, ImportMapPaths[0], next);
    var map2 := UpdateDenoImportMapSpec(env, map1.0, ImportMapPaths[1], next);
    (map2.0, map1.1 && map2.1)
  }

  /** The release from the import maps on, once every manifest has been bumped. */
  function AfterBump(env: Env, bumped: World, next: string): (r: (World, ReleaseOutcome))
  {
    var maps := UpdateImportMapsSpec(env, bumped, next);
    if !maps.1 then (maps.0, ImportMapFailed) else AfterImportMaps(env, maps.0, next)
  }

  /** The deployment script, then the commit and the tag. */
  function AfterImportMaps(env: Env, mapped: World, next: string): (r: (World, ReleaseOutcome))
    ensures r.1 != ImportMapFailed
    ensures r.1 == DeploymentScriptFailed ==> r.0 == mapped
    ensures r.1 != DeploymentScriptFailed ==>
              var deployed := UpdateDeploymentScriptVersionSpec(env, mapped, next);
              deployed.1 && r == CommitAndTag(env, deployed.0, next)
  {
    var deployed := UpdateDeploymentScriptVersionSpec(env, mapped, next);
    if !deployed.1 then (deployed.0, DeploymentScriptFailed) else CommitAndTag(env, deployed.0, next)
  }

  /**
   * `git commit --all --message="Version <v>"`, then `git tag -a -m
   * "Version <v>" v<v>`, each only once the one before succeeded, then the
   * closing line. No file changes.
   */
  function CommitAndTag(env: Env, deployed: World, next: string): (r: (World, ReleaseOutcome))
    ensures var commit := GitCommitAll(CommitMessage(next));
            var tag := GitTagAnnotated(TagName(next), CommitMessage(next));
            r.0.files == deployed.files
            && (r.1 == CommitFailed || r.1 == TagFailed || r.1 == Released)
            && (r.1 == CommitFailed <==> commit in env.failing)
            && (r.1 == Released <==> commit !in env.failing && tag !in env.failing)
            && (r.1 == CommitFailed ==> r.0.commands == deployed.commands + [Exec(commit, false)])
            && (r.1 == TagFailed ==> r.0.commands == deployed.commands + [Exec(commit, true), Exec(tag, false)])
            && (r.1 == Released ==>
                  r.0.commands == deployed.commands + [Exec(commit, true), Exec(tag, true)]
                  && r.0.headTags == [TagName(next)]
                  && r.0.console == deployed.console + [Stdout(TaggedLine(next))])
            && (r.1 != Released ==> r.0.console == deployed.console)
  {
    var committed := Run(env, deployed, GitCommitAll(CommitMessage(next)));
    if committed.1.Err? then (committed.0, CommitFailed)
    else
      var tagged := Run(env, committed.0, GitTagAnnotated(TagName(next), CommitMessage(next)));
      if tagged.1.Err? then (tagged.0, TagFailed)
      else (Say(tagged.0, Stdout(TaggedLine(next))), Released)
  }

  lemma ReleaseTargetsDistinct()
    ensures Distinct(ReleaseTargets())
  {
    ReleaseTargetsShape();
  }

  /** After the bump: the commands the rest of the release runs, by outcome. */
  lemma AfterBumpCommands(env: Env, b: World, next: string)
    ensures var r := AfterBump(env, b, next);
            var commit := GitCommitAll(CommitMessage(next));
            var tag := GitTagAnnotated(TagName(next), CommitMessage(next));
            (r.1 == ImportMapFailed || r.1 == DeploymentScriptFailed ==>
               r.0.commands == b.commands && r.0.headTags == b.headTags)
            && (r.1 == CommitFailed ==> r.0.commands == b.commands + [Exec(commit, false)])
            && (r.1 == TagFailed ==> r.0.commands == b.commands + [Exec(commit, true), Exec(tag, false)])
            && (r.1 == Released ==>
                  r.0.commands == b.commands + [Exec(commit, true), Exec(tag, true)]
                  && r.0.headTags == [TagName(next)])
  {
    var maps := UpdateImportMapsSpec(env, b, next);
    if maps.1 {
      var deployed := UpdateDeploymentScriptVersionSpec(env, maps.0, next);
    }
  }

  /**
   * What `incrementRemixVersion` leaves in the effect log and at `HEAD`: no
   * command before both import maps and the deployment script are written;
   * then the commit `Version <v>` and the annotated tag `v<v>` with the same
   * message, each run only after the one before it succeeded.
   */
  lemma ReleaseCommands(env: Env, w: World, next: string)
    ensures var r := ReleaseSpec(env, w, next);
            var commit := GitCommitAll(CommitMessage(next));
            var tag := GitTagAnnotated(TagName(next), CommitMessage(next));
            (r.1 == ImportMapFailed || r.1 == DeploymentScriptFailed ==>
               r.0.commands == w.commands && r.0.headTags == w.headTags)
            && (r.1 == CommitFailed ==> r.0.commands == w.commands + [Exec(commit, false)])
            && (r.1 == TagFailed ==> r.0.commands == w.commands + [Exec(commit, true), Exec(tag, false)])
            && (r.1 == Released ==>
                  r.0.commands == w.commands + [Exec(commit, true), Exec(tag, true)]
                  && r.0.headTags == [TagName(next)])
  {
    ReleaseTargetsDistinct();
    UpdateTargetsLog(env, w, ReleaseTargets(), next);
    AfterBumpCommands(env, UpdateTargets(env, w, ReleaseTargets(), next), next);
  }

  lemma AfterBumpConsole(env: Env, b: World, next: string)
    requires AfterBump(env, b, next).1 == Released
    ensures AfterBump(env, b, next).0.console == b.console + [Stdout(DeploymentLine(next)), Stdout(TaggedLine(next))]
  {
    var maps := UpdateImportMapsSpec(env, b, next);
    var deployed := UpdateDeploymentScriptVersionSpec(env, maps.0, next);
  }

  /**
   * The console after a release: each target's lines in target order, the
   * deployment script's line, then the commit-and-tag line.
   */
  lemma ReleaseConsole(env: Env, w: World, next: string)
    requires ReleaseSpec(env, w, next).1 == Released
    ensures ReleaseSpec(env, w, next).0.console
            == w.console + TargetLines(w, ReleaseTargets(), next) + [Stdout(DeploymentLine(next)), Stdout(TaggedLine(next))]
  {
    ReleaseTargetsDistinct();
    UpdateTargetsLog(env, w, ReleaseTargets(), next);
    AfterBumpConsole(env, UpdateTargets(env, w, ReleaseTargets(), next), next);
  }

  /** A manifest path is `packages/<name>/package.json`: none of the import maps or the deployment script. */
  lemma ManifestPathElsewhere(name: string)
    ensures ManifestPath(name) != ImportMapPaths[0] && ManifestPath(name) != ImportMapPaths[1]
    ensures ManifestPath(name) != DeploymentPath
  {
    assert DeploymentPath[0] == "scripts";
  }

  lemma ManifestPathsElsewhere(names: seq<string>)
    ensures ImportMapPaths[0] !in ManifestPaths(names) && ImportMapPaths[1] !in ManifestPaths(names)
    ensures DeploymentPath !in ManifestPaths(names)
  {
    var ps := ManifestPaths(names);
    forall i | 0 <= i < |ps|
      ensures ps[i] != ImportMapPaths[0] && ps[i] != ImportMapPaths[1] && ps[i] != DeploymentPath
    {
      ManifestPathElsewhere(names[i]);
    }
  }

  /** The rest of the release touches only the two import maps and the deployment script. */
  lemma AfterBumpOtherFiles(env: Env, b: World, next: string, p: Path)
    requires p != ImportMapPaths[0] && p != ImportMapPaths[1] && p != DeploymentPath
    ensures Read(AfterBump(env, b, next).0, p) == Read(b, p)
  {
    var maps := UpdateImportMapsSpec(env, b, next);
    if maps.1 {
      var deployed := UpdateDeploymentScriptVersionSpec(env, maps.0, next);
    }
  }

  /**
   * Whatever the outcome, each release target's manifest ends as one bump
   * of its original content when that was readable, truthy and writable,
   * and untouched otherwise.
   */
  lemma ReleaseManifests(env: Env, w: World, next: string, i: nat)
    requires i < |ReleaseTargets()|
    ensures var path := ManifestPath(ReleaseTargets()[i]);
            Read(ReleaseSpec(env, w, next).0, path) == AfterUpdate(env, w, path, RemixVersionTransform(next))
  {
    ReleaseTargetsDistinct();
    UpdateTargetsFiles(env, w, ReleaseTargets(), next);
    var path := ManifestPath(ReleaseTargets()[i]);
    ManifestPathElsewhere(ReleaseTargets()[i]);
    AfterBumpOtherFiles(env, UpdateTargets(env, w, ReleaseTargets(), next), next, path);
  }

  /** An outcome reached only once the deployment script has been written. */
  predicate PastDeployment(outcome: ReleaseOutcome)
  {
    outcome == Released || outcome == CommitFailed || outcome == TagFailed
  }

  /** Past the deployment script, both earlier steps succeeded and the files are as the script's step left them. */
  lemma AfterBumpStages(env: Env, b: World, next: string)
    requires PastDeployment(AfterBump(env, b, next).1)
    ensures var maps := UpdateImportMapsSpec(env, b, next);
            var deployed := UpdateDeploymentScriptVersionSpec(env, maps.0, next);
            maps.1 && deployed.1 && AfterBump(env, b, next).0.files == deployed.0.files
  {
  }

  /** Past the deployment script, its manifest holds the edit of the file as it was. */
  lemma AfterBumpDeployment(env: Env, b: World, next: string)
    requires PastDeployment(AfterBump(env, b, next).1)
    ensures var r := AfterBump(env, b, next).0;
            Read(b, DeploymentPath).Ok? && DeploymentEdit(Read(b, DeploymentPath).value, next).Ok?
            && Read(r, DeploymentPath) == Ok(DeploymentEdit(Read(b, DeploymentPath).value, next).value)
  {
    AfterBumpStages(env, b, next);
    assert DeploymentPath !in ImportMapPaths by {
      assert DeploymentPath[0] == "scripts";
    }
  }

  /** Past the deployment script, each import map holds the rewrite of the file as it was. */
  lemma AfterBumpImportMaps(env: Env, b: World, next: string, k: nat)
    requires PastDeployment(AfterBump(env, b, next).1) && k < 2
    ensures var r := AfterBump(env, b, next).0;
            Read(b, ImportMapPaths[k]).Ok? && UpdatedImportMap(Read(b, ImportMapPaths[k]).value, next).Ok?
            && Read(r, ImportMapPaths[k]) == Ok(UpdatedImportMap(Read(b, ImportMapPaths[k]).value, next).value)
  {
    AfterBumpStages(env, b, next);
    assert ImportMapPaths[k] != DeploymentPath by {
      assert DeploymentPath[0] == "scripts";
    }
  }

  /**
   * Once the release gets past the deployment script, both import maps hold
   * their rewrite and the deployment script's manifest holds the edit that
   * sets `dependencies["@remix-run/dev"]`, each computed from the original
   * file.
   */
  lemma ReleaseRewrites(env: Env, w: World, next: string)
    requires PastDeployment(ReleaseSpec(env, w, next).1)
    ensures var r := ReleaseSpec(env, w, next).0;
            Read(w, DeploymentPath).Ok? && DeploymentEdit(Read(w, DeploymentPath).value, next).Ok?
            && Read(r, DeploymentPath) == Ok(DeploymentEdit(Read(w, DeploymentPath).value, next).value)
            && (forall k :: 0 <= k < 2 ==>
                  Read(w, ImportMapPaths[k]).Ok? && UpdatedImportMap(Read(w, ImportMapPaths[k]).value, next).Ok?
                  && Read(r, ImportMapPaths[k]) == Ok(UpdatedImportMap(Read(w, ImportMapPaths[k]).value, next).value))
  {
    UpdateTargetsElsewhere(env, w, ReleaseTargets(), next);
    ManifestPathsElsewhere(ReleaseTargets());
    var b := UpdateTargets(env, w, ReleaseTargets(), next);
    AfterBumpDeployment(env, b, next);
    assert Read(b, DeploymentPath) == Read(w, DeploymentPath);
    forall k | 0 <= k < 2
      ensures Read(w, ImportMapPaths[k]).Ok? && UpdatedImportMap(Read(w, ImportMapPaths[k]).value, next).Ok?
              && Read(ReleaseSpec(env, w, next).0, ImportMapPaths[k])
                 == Ok(UpdatedImportMap(Read(w, ImportMapPaths[k]).value, next).value)
    {
      AfterBumpImportMaps(env, b, next, k);
      assert Read(b, ImportMapPaths[k]) == Read(w, ImportMapPaths[k]);
    }
  }

  // ---------------------------------------------------------------------------
  // The steps on the workspace.

  method UpdatePackageConfig(ws: Workspace, packageName: string, transform: Json -> Json) returns (outcome: UpdateOutcome)
    modifies ws
    ensures (ws.State(), outcome) == UpdatePackageConfigSpec(ws.env, old(ws.State()), packageName, transform)
  {
    var path := ManifestPath(packageName);
    var read := ws.ReadJson(path);
    if read.Err? {
      return Skipped(ReadFailed(read.error));
    }
    var json := read.value;
    if !Truthy(json) {
      ws.Log(Stdout(SkippingLine(packageName)));
      return Skipped(Falsy);
    }
    var ok := ws.WriteJson(path, transform(json));
    outcome := if ok then Written else Skipped(WriteFailed);
  }

  /**
   * `updateRemixVersion`: the steps of `updatePackageConfig` with the
   * transform run as the loop in `utils.js`, then the `Updated …` line.
   */
  method UpdateRemixVersion(ws: Workspace, packageName: string, next: string, successMessage: string)
    requires Parsed(ws.State())
    modifies ws
    ensures ws.State() == UpdateRemixVersionSpec(ws.env, old(ws.State()), packageName, next, successMessage)
  {
    var path := ManifestPath(packageName);
    var read := ws.ReadJson(path);
    if read.Ok? {
      if !Truthy(read.value) {
        ws.Log(Stdout(SkippingLine(packageName)));
      } else {
        var bumped := TransformRemixVersion(read.value, next);
        var _ := ws.WriteJson(path, bumped);
      }
    }
    ws.Log(Stdout(UpdatedLine(packageName, next, successMessage)));
  }

  method UpdateDenoImportMap(ws: Workspace, path: Path, next: string) returns (ok: bool)
    modifies ws
    ensures (ws.State(), ok) == UpdateDenoImportMapSpec(ws.env, old(ws.State()), path, next)
  {
    var read := ws.ReadJson(path);
    if read.Err? {
      return false;
    }
    var updated := UpdatedImportMap(read.value, next);
    if updated.Err? {
      return false;
    }
    ok := ws.WriteJson(path, updated.value);
  }

  method UpdateDeploymentScriptVersion(ws: Workspace, next: string) returns (ok: bool)
    modifies ws
    ensures (ws.State(), ok) == UpdateDeploymentScriptVersionSpec(ws.env, old(ws.State()), next)
  {
    var read := ws.ReadJson(DeploymentPath);
    if read.Err? {
      return false;
    }
    var edited := DeploymentEdit(read.value, next);
    if edited.Err? {
      return false;
    }
    ok := ws.WriteJson(DeploymentPath, edited.value);
    if ok {
      ws.Log(Stdout(DeploymentLine(next)));
    }
  }

  /** The first half of `incrementRemixVersion`: the two umbrella packages, then every `remix-<name>`. */
  method UpdateReleaseTargets(ws: Workspace, next: string)
    requires Parsed(ws.State())
    modifies ws
    ensures ws.State() == UpdateTargets(ws.env, old(ws.State()), ReleaseTargets(), next)
  {
    ghost var w := ws.State();
    UpdateRemixVersion(ws, "remix", next, "");
    UpdateRemixVersionParsed(ws.env, w, "remix", next, "");
    ghost var w1 := ws.State();
    UpdateRemixVersion(ws, "create-remix", next, "");
    UpdateRemixVersionParsed(ws.env, w1, "create-remix", next, "");
    ghost var umbrella: seq<string> := ["remix", "create-remix"];
    UmbrellaTargets(ws.env, w, next);
    UpdateRemixDirs(ws, All, next);
    UpdateTargetsConcat(ws.env, w, umbrella, RemixDirs(All), next);
  }

  /** The two umbrella packages, one after the other. */
  lemma UmbrellaTargets(env: Env, w: World, next: string)
    ensures UpdateTargets(env, w, ["remix", "create-remix"], next)
            == UpdateRemixVersionSpec(env, UpdateRemixVersionSpec(env, w, "remix", next, ""), "create-remix", next, "")
  {
    var umbrella: seq<string> := ["remix", "create-remix"];
    assert umbrella[..1] == ["remix"];
    assert ["remix"][..0] == [];
  }

  /** `for (const name of names) await updateRemixVersion(`remix-${name}`, next)`. */
  method UpdateRemixDirs(ws: Workspace, names: seq<string>, next: string)
    requires Parsed(ws.State())
    modifies ws
    ensures ws.State() == UpdateTargets(ws.env, old(ws.State()), RemixDirs(names), next)
  {
    ghost var w := ws.State();
    for i := 0 to |names|
      invariant ws.State() == UpdateTargets(ws.env, w, RemixDirs(names[..i]), next)
    {
      UpdateTargetsParsed(ws.env, w, RemixDirs(names[..i]), next);
      UpdateRemixVersion(ws, "remix-" + names[i], next, "");
      RemixDirsPrefix(names, i);
    }
    assert names[..|names|] == names;
  }

  /** Bumping `a` and then `b` is bumping `a + b`. */
  lemma {:induction false} UpdateTargetsConcat(env: Env, w: World, a: seq<string>, b: seq<string>, next: string)
    ensures UpdateTargets(env, UpdateTargets(env, w, a, next), b, next) == UpdateTargets(env, w, a + b, next)
    decreases |b|
  {
    if b == [] {
      assert a + b == a;
    } else {
      var ab := a + b;
      assert ab[..|ab| - 1] == a + b[..|b| - 1];
      assert ab[|ab| - 1] == b[|b| - 1];
      UpdateTargetsConcat(env, w, a, b[..|b| - 1], next);
    }
  }

  method IncrementRemixVersion(ws: Workspace, next: string) returns (outcome: ReleaseOutcome)
    requires Parsed(ws.State())
    modifies ws
    ensures (ws.State(), outcome) == ReleaseSpec(ws.env, old(ws.State()), next)
  {
    UpdateReleaseTargets(ws, next);
    var ok1 := UpdateDenoImportMap(ws, ImportMapPaths[0], next);
    var ok2 := UpdateDenoImportMap(ws, ImportMapPaths[1], next);
    if !(ok1 && ok2) {
      return ImportMapFailed;
    }
    var deployed := UpdateDeploymentScriptVersion(ws, next);
    if !deployed {
      return DeploymentScriptFailed;
    }
    var committed := ws.ExecSync(GitCommitAll(CommitMessage(next)));
    if committed.Err? {
      return CommitFailed;
    }
    var tagged := ws.ExecSync(GitTagAnnotated(TagName(next), CommitMessage(next)));
    if tagged.Err? {
      return TagFailed;
    }
    ws.Log(Stdout(TaggedLine(next)));
    return Released;
  }
}
