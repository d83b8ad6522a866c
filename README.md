# Remix release scripts, modelled in Dafny

This project models the two scripts that cut and publish a Remix release.

- `scripts/utils.js` bumps the version in package manifests and rewrites two Deno import maps. It then pins the deployment test script's `@remix-run/dev` dependency, commits, and tags `v<version>`. It also holds the package table and the clean-working-tree test.
- `scripts/publish-private.js` reads the version from the tag at `HEAD` and derives the npm distribution channel from it. It then patches and publishes the thirteen `@remix-run/*` packages in a fixed order, stopping at the first failure.

The model is organised as follows:

- A parsed JSON document is the datatype `JsonValues.Json`. Object fields are kept in JavaScript's enumeration order.
- The checkout is a `Repository.World` value. It holds:
  - the JSON files, keyed by path segments relative to the repository root;
  - the log of `git` and `npm` commands, each with its outcome;
  - the console;
  - the tags at `HEAD`.
- `Repository.Env` fixes which files are read-only and which commands exit non-zero.
- Each script step is a specification function from a `World` to the next `World` and an outcome.
- The steps that run in sequence are methods on the class `Repository.Workspace`, which holds the same state in fields. Each method's `ensures` ties the new state to the specification function applied to `old(ws.State())`.
- Lemmas then state what the scripts promise about those functions.

The JavaScript semantics the scripts rely on are spelled out:

- Truthiness.
- `Object.entries` of strings, arrays and primitives.
- Object spread putting `imports` last.
- The ECMAScript whitespace set of `trim`.
- `replace(/^v/g, "")` removing only one leading `v`.
- Sloppy-mode assignment to a property of a primitive being ignored.
- `Promise.all` starting both import-map rewrites.

Modules, one per file:

- `Wrappers`: `Option` and `Result`.
- `Strings`: split, join, trim and substring search.
- `JsonValues`: JSON values with ordered fields; `Lookup`, `Put` and `Remove`.
- `Packages`: the package table, scoped names, manifest paths.
- `WorkingTree`: `ensureCleanWorkingDirectory`.
- `Manifests`: the version-bump transform (as a specification and as the loop in `utils.js`), the deployment pin, the printed name.
- `Specifiers`: `getPackageNameFromImportSpecifier`, both as written and corrected.
- `ImportMaps`: `updateDenoImportMap`'s document rewrite.
- `Repository`: files, commands, console, tags, and the `Workspace` class.
- `Release`: `updatePackageConfig`, `updateRemixVersion`, `updateDeploymentScriptVersion` and `incrementRemixVersion`.
- `Publish`: `getTaggedVersion`, the channel, the publish order, the local `updatePackageConfig`, and `run`.

Behaviour of the scripts worth noting:

- The clean-tree test is exported as `ensureCleanWorkingDirectory`. `incrementRemixVersion` does not call it, so the release model does not check it first.
- An unreadable or unparsable workspace manifest is not fatal. `updatePackageConfig` swallows read and write errors; the transform it is given never throws.
- Both import-map rewrites are started together, and a failure in either fails the release. The model assumes the other rewrite still finishes and writes its map. The scripts stop awaiting it, so it may not complete if the process exits first.
- "No tag" is an empty trimmed tag listing: the script prints a message and stops. A `git tag` that itself fails throws before that check.

## Model

| member | source | states |
|---|---|---|
| `Packages.AllShape` | scripts/utils.js:10-23 | `all` is adapters, then runtimes, then core, then `serve`: 14 pairwise distinct names with `serve` last |
| `Packages.AllNamesUnscoped` | scripts/utils.js:10-20 | no package name in the table contains `/` |
| `Packages.ScopedInjective` | scripts/utils.js:95 | different packages have different `@remix-run/<pkg>` names |
| `Packages.SplitScoped` | scripts/utils.js:144-145 | `@remix-run/<p>` splits at `/` into exactly the scope and `p` when `p` has no `/`, and a following `/<rest>` adds the segments of `<rest>` |
| `Packages.InScopedNames` | scripts/utils.js:157-159 | a name is among the scoped names of a list exactly when it is `@remix-run/<p>` for some `p` in the list |
| `Packages.PackageJson` | scripts/utils.js:31-33 | the manifest path is the directory, dropped when empty, then `<packageName>/package.json` |
| `Packages.PackageJsonInjective` | scripts/utils.js:31-33 | two packages in the same directory never share a manifest path |
| `WorkingTree.EnsureCleanWorkingDirectory` | scripts/utils.js:48-57 | the not-clean message is produced exactly when the trimmed status has a line that is neither empty nor starts with `?` |
| `WorkingTree.CleanByLineStarts` | scripts/utils.js:49-51 | the per-line test equals a test on characters: wherever a line of the trimmed output begins, there is a line break or `?` |
| `WorkingTree.EmptyIsClean` | scripts/utils.js:49-51 | status output made only of whitespace, including none at all, is clean |
| `WorkingTree.TrackedChangeIsDirty` | scripts/utils.js:49-51 | a line of the trimmed status that starts with anything but `?` makes the tree dirty |
| `WorkingTree.UntrackedOnlyIsClean` | scripts/utils.js:49-51 | porcelain output listing only untracked files, each line ending in a line break, is clean |
| `Manifests.TransformRemixVersion` | scripts/utils.js:92-104 | the loop in `utils.js` (set `version`, then per package and per dependency field re-pin a truthy `@remix-run/<pkg>` entry) computes exactly `RemixVersionEdit` |
| `Manifests.RemixVersionEditSetsVersion` | scripts/utils.js:93 | after the transform `version` is the new version |
| `Manifests.ExactPins` | scripts/utils.js:94-103 | in each dependency object, every truthy `@remix-run/<pkg>` entry with `pkg` in `all` becomes the new version, and every other entry, falsy entry or missing key is as before; no key is added |
| `Manifests.RemixVersionEditKeys` | scripts/utils.js:93-103 | the top-level keys are unchanged, except that `version` is appended when it was missing |
| `Manifests.RemixVersionEditKeepsOthers` | scripts/utils.js:93-103 | every field other than `version` and an object-valued dependency field keeps its value |
| `Manifests.RemixVersionEditIdempotent` | scripts/utils.js:92-104 | applying the transform twice with the same version equals applying it once |
| `Manifests.PinEntriesStep` | scripts/utils.js:95-96 | one conditional assignment on a dependency object extends the pinned key list by that key |
| `Manifests.PinPackageStep` | scripts/utils.js:95-103 | one loop iteration (the three fields for one package) extends the pinned key list of all three fields by that package |
| `Manifests.DeploymentEdit` | scripts/utils.js:125-126 | `json.dependencies["@remix-run/dev"] = next`: throws exactly for a non-object document or a missing or `null` `dependencies`; on an object, sets that entry and keeps every other entry and field; the top-level key order is kept, and inside `dependencies` the keys keep their order with `@remix-run/dev` appended when it was missing; a primitive `dependencies` is left as it was |
| `Manifests.LogNameCases` | scripts/utils.js:106-108 | `remix-<x>` is shown as `@remix-run/<x>`; a name without the prefix is shown as is |
| `Specifiers.UnscopedNameHasNoSlash` | scripts/utils.js:148-149 | for a specifier not starting with `@`, the package name has no `/` |
| `Specifiers.ScopedNameIsTwoSegments` | scripts/utils.js:143-145 | for a scoped specifier with a `/`, the package name is the scope, `/`, and the next segment |
| `Specifiers.SplitRoundTrip` | scripts/utils.js:142-150 | when the sub-path is not empty, name `/` sub-path is the original specifier |
| `Specifiers.EmptySubPath` | scripts/utils.js:142-150 | for the corrected splitter, when the sub-path is empty, the specifier is the name or the name followed by `/` |
| `Specifiers.BareScopeAsWritten` | scripts/utils.js:143-145 | as written, a bare scope `@x` splits into the name `@x/undefined` |
| `Specifiers.SplittersAgreeOnWorkspaceNames` | scripts/utils.js:142-150 | where the splitter as written and the corrected one differ, neither name is a workspace package |
| `ImportMaps.ImportEntries` | scripts/utils.js:162 | `Object.entries` throws exactly for `null` and `undefined` |
| `ImportMaps.UpdatedImportMap` | scripts/utils.js:156-181 | the written document exists exactly when the file holds an object whose `imports` is neither missing nor `null`; its keys are the other fields in order, then `imports` |
| `ImportMaps.RewriteImportsKeys` | scripts/utils.js:161-175 | the rewrite keeps every import name and their order |
| `ImportMaps.RewriteImportsAt` | scripts/utils.js:163-173 | an entry whose package name is `@remix-run/<p>` for `p` in `all` gets `https://esm.sh/<name>@<ver>` plus `/<sub>` when the sub-path is not empty; any other entry keeps its value |
| `ImportMaps.WorkspacePackageUrl` | scripts/utils.js:166-171 | `@remix-run/<p>` alone becomes `https://esm.sh/@remix-run/<p>@<ver>` |
| `ImportMaps.WorkspaceSubPathUrl` | scripts/utils.js:166-171 | `@remix-run/<p>/<sub>` keeps its sub-path after the version |
| `ImportMaps.PlainSpecifierKept` | scripts/utils.js:166-173 | an unscoped specifier without `/` is never rewritten |
| `ImportMaps.IndexEntriesKept` | scripts/utils.js:161-175 | the index-keyed entries of an array or string `imports` are all kept |
| `ImportMaps.RewriteImportsIdempotent` | scripts/utils.js:161-175 | rewriting already rewritten imports changes nothing |
| `ImportMaps.RewriteEntrySplittersAgree` | scripts/utils.js:162-173 | each entry is rewritten the same with the splitter as written and with the corrected one |
| `ImportMaps.UpdatedImportMapFields` | scripts/utils.js:156-179 | every top-level field but `imports` keeps its value, and `imports` holds the rewritten entries |
| `ImportMaps.UpdatedImportMapOrder` | scripts/utils.js:156-179 | the other fields keep their relative order and the new `imports` comes last |
| `ImportMaps.UpdatedImportMapIdempotent` | scripts/utils.js:155-182 | rewriting the written map again with the same version writes the same document |
| `Repository.Read` | scripts/utils.js:76 | a read succeeds exactly for a present, parsable file and gives its document, which has no repeated key when every stored document is one `JSON.parse` gives |
| `Repository.Write` | scripts/utils.js:82 | a write fails exactly for a read-only file; otherwise it stores the document; no other file, command, console line or tag changes; writing a document without repeated keys keeps the files so |
| `Repository.Run` | scripts/utils.js:209-210 | every command is logged with its outcome; a failing one throws and changes no file, console line or tag |
| `Repository.InsertSorted` | scripts/utils.js:210 | the tag list after `git tag` holds exactly the old tags and the new one |
| `Repository.CommitThenTag` | scripts/utils.js:209-210 | after a successful commit and tag, exactly the new tag is at `HEAD`, and `git tag --points-at HEAD` lists just it |
| `Repository.Workspace.ReadJson` | scripts/utils.js:76 | reads the workspace's file as `Read` does |
| `Repository.Workspace.WriteJson` | scripts/utils.js:82 | changes the workspace as `Write` does |
| `Repository.Workspace.ExecSync` | scripts/utils.js:209-210 | changes the workspace as `Run` does and returns its result |
| `Release.UpdatePackageConfigEffect` | scripts/utils.js:73-84 | no error reaches the caller and no command runs; only the package's own manifest changes, and only when it was read, truthy and writable; a falsy one prints the skip notice |
| `Release.MissingManifestSkipped` | scripts/utils.js:75-83 | a missing or unparsable manifest changes nothing and is reported as skipped |
| `Release.UpdatePackageConfig` | scripts/utils.js:73-84 | the method changes the workspace as `UpdatePackageConfigSpec` does |
| `Release.UpdateRemixVersionEffect` | scripts/utils.js:91-117 | the manifest is bumped or left as it was, the other files are kept, and the `Updated <name> to version <v>` line is printed even when the manifest was skipped |
| `Release.UpdateRemixVersion` | scripts/utils.js:91-117 | the method, running the loop `Manifests.TransformRemixVersion` on the document it reads, changes the workspace as `UpdateRemixVersionSpec` does |
| `Release.UpdateRemixVersionParsed` | scripts/utils.js:91-104 | bumping a manifest keeps every stored document free of repeated keys |
| `Release.UpdateTargetsParsed` | scripts/utils.js:189-193 | bumping the targets in turn keeps every stored document free of repeated keys, so each bump reads one the loop handles |
| `Manifests.RemixVersionEditWellFormed` | scripts/utils.js:92-104 | the bump of a document without repeated keys has none, at any depth |
| `Release.ReleaseTargetsShape` | scripts/utils.js:189-193 | the targets are `remix`, `create-remix`, then `remix-<name>` for each name of `all` in order: 16 distinct names |
| `Release.UpdateTargetsFiles` | scripts/utils.js:189-193 | after bumping distinct targets in turn, each target's manifest is its own manifest bumped once |
| `Release.UpdateTargetsElsewhere` | scripts/utils.js:189-193 | bumping the targets touches no file but their manifests |
| `Release.UpdateTargetsLog` | scripts/utils.js:189-193 | bumping the targets runs no command and prints, target by target, the skip notice if any, then the `Updated …` line |
| `Release.UpdateTargetsConcat` | scripts/utils.js:189-193 | bumping one list of targets and then another equals bumping their concatenation |
| `Release.UmbrellaTargets` | scripts/utils.js:189-190 | bumping `["remix", "create-remix"]` is `updateRemixVersion("remix")` followed by `updateRemixVersion("create-remix")` |
| `Release.UpdateRemixDirs` | scripts/utils.js:191-193 | the loop over `all` bumps `remix-<name>` for each name in order |
| `Release.UpdateReleaseTargets` | scripts/utils.js:188-193 | the first stage of the release bumps exactly the release targets, in order |
| `Release.UpdateDenoImportMapSpec` | scripts/utils.js:155-182 | the rewrite succeeds exactly when the map is read, rewritable and writable; only then is the file replaced by the rewritten document; nothing else changes |
| `Release.UpdateDenoImportMap` | scripts/utils.js:155-182 | the method changes the workspace as `UpdateDenoImportMapSpec` does |
| `Release.UpdateImportMapsSpec` | scripts/utils.js:196-203 | the step fails exactly when either rewrite throws; each map that can be rewritten is, assuming the unawaited one finishes; no other file, command, console line or tag changes |
| `Release.UpdateDeploymentScriptVersionSpec` | scripts/utils.js:123-136 | the step succeeds exactly when the script's manifest is read, editable and writable; then it holds the pinned document and the `Updated Remix …` line is printed; otherwise nothing changes |
| `Release.UpdateDeploymentScriptVersion` | scripts/utils.js:123-136 | the method changes the workspace as `UpdateDeploymentScriptVersionSpec` does |
| `Release.AfterImportMaps` | scripts/utils.js:205-211 | a failing deployment script stops the release unchanged; otherwise the commit and tag follow |
| `Release.CommitAndTag` | scripts/utils.js:208-211 | `git commit --all --message="Version <v>"`, then `git tag -a -m "Version <v>" v<v>`, each only once the one before succeeded; on success exactly `v<v>` is at `HEAD` and the closing line is printed; no file changes |
| `Release.ReleaseTargetsDistinct` | scripts/utils.js:189-193 | the release targets are pairwise distinct |
| `Release.AfterBumpCommands` | scripts/utils.js:196-210 | after the bump, the only commands are the commit and then the tag, logged according to how far the release got |
| `Release.AfterBumpStages` | scripts/utils.js:196-206 | a release that reaches the commit has rewritten both maps and pinned the deployment script |
| `Release.AfterBumpDeployment` | scripts/utils.js:205-206 | a release that reaches the commit wrote the pinned deployment manifest |
| `Release.AfterBumpImportMaps` | scripts/utils.js:196-203 | a release that reaches the commit wrote both rewritten import maps |
| `Release.AfterBumpOtherFiles` | scripts/utils.js:196-210 | after the bump, only the two import maps and the deployment manifest can change |
| `Release.AfterBumpConsole` | scripts/utils.js:205-211 | a completed release prints, after the bump, the deployment line and then the tagged line |
| `Release.ReleaseCommands` | scripts/utils.js:187-212 | the whole release runs no command before the commit; the command log ends with the commit `Version <v>` and the tag `v<v>`, each logged with its outcome, and a successful release leaves exactly `v<v>` at `HEAD` |
| `Release.ReleaseConsole` | scripts/utils.js:187-212 | a completed release prints the lines of each target in order, then the deployment line, then the tagged line |
| `Release.ReleaseManifests` | scripts/utils.js:187-212 | every release target's manifest ends up bumped once, whatever happens later |
| `Release.ReleaseRewrites` | scripts/utils.js:196-206 | a release that reaches the commit wrote both rewritten import maps and the pinned deployment manifest |
| `Release.IncrementRemixVersion` | scripts/utils.js:187-212 | the method changes the workspace as `ReleaseSpec` does and returns its outcome |
| `Publish.TaggedVersion` | scripts/publish-private.js:8-11 | the trimmed tag output with one leading `v` removed, if there is one, and otherwise as it is |
| `Publish.TaggedVersionRoundTrip` | scripts/publish-private.js:8-11 | reading back the listing of the single tag `v<v>` gives `<v>` |
| `Publish.OneLeadingVRemoved` | scripts/publish-private.js:10 | only the first `v` is removed: `vv1` gives `v1` |
| `Publish.Channel` | scripts/publish-private.js:29-37 | no or an empty identifier gives `latest`; one containing `nightly` gives `nightly`, checked first; then `experimental`; otherwise the identifier itself |
| `Publish.ReleaseVersionIsLatest` | scripts/publish-private.js:29-30 | a version without `-`, with or without build metadata, has no pre-release identifier |
| `Publish.PrereleaseIdentifier` | scripts/publish-private.js:29-30 | the first identifier is what follows the first `-`, up to the first `.` |
| `Publish.ReleaseExample` | scripts/publish-private.js:29-37 | `2.0.0` is published as `latest` |
| `Publish.NightlyExample` | scripts/publish-private.js:29-37 | `2.0.0-nightly.3` is published as `nightly` |
| `Publish.ExperimentalExample` | scripts/publish-private.js:29-37 | `0.0.0-experimental-1a2b` is published as `experimental` |
| `Publish.BetaExample` | scripts/publish-private.js:29-37 | `2.0.0-beta.1` is published as `beta` |
| `Publish.PublishOrderShape` | scripts/publish-private.js:40-54 | the publish order has 13 distinct names; as a set it is `all` without `eslint-config` |
| `Publish.PublishOrderPrecedence` | scripts/publish-private.js:40-54 | `server-runtime` precedes every adapter and runtime, `node` precedes `architect`, `express`, `vercel` and `netlify`, and `express` precedes `serve` |
| `Publish.PublishOrderIsNotAll` | scripts/publish-private.js:40-54 | the order of `all` is not the publish order: there `architect` comes before `server-runtime` |
| `Publish.BuiltManifest` | scripts/publish-private.js:78 | the patched manifest is `build/node_modules/@remix-run/<name>/package.json` |
| `Publish.RepositoryPatch` | scripts/publish-private.js:56-58 | `config.repository = url` throws exactly for `null`; on an object it sets `repository` and keeps every other field and the key order; other values stay as they were |
| `Publish.PublishOneEffect` | scripts/publish-private.js:56-59 | the publish command is issued exactly once the patched manifest was written; only that manifest changes; a failing read, patch or write changes nothing |
| `Publish.PublishOneCommands` | scripts/publish-private.js:56-59 | one iteration logs its publish command with its outcome, or nothing when the patch failed |
| `Publish.PublishAll` | scripts/publish-private.js:40-60 | a reported failure index lies within the list |
| `Publish.PublishAllFailure` | scripts/publish-private.js:40-60 | a failure reported at index `i` is the failure of `names[i]` itself, reached after every package before it went through without one |
| `Publish.PublishAllStops` | scripts/publish-private.js:40-60 | once a prefix of the list has failed, the rest of the list changes nothing |
| `Publish.PublishAllCommands` | scripts/publish-private.js:40-60 | every package before the failure is published, in list order and on the same channel, followed by the failed publish if that is how the loop stopped; nothing is printed |
| `Publish.PublishAllFiles` | scripts/publish-private.js:40-60 | each package before the failure has its manifest patched; no package after it is touched; no other file changes |
| `Publish.FailedPackageManifest` | scripts/publish-private.js:56-59 | the manifest of the package the loop stopped at is patched when `npm publish` failed, and is as it was when the read, the patch or the write failed |
| `Publish.PublishRunUnfold` | scripts/publish-private.js:8-37 | `run` lists the tags at `HEAD`, then continues with the version read from that listing |
| `Publish.MissingVersionTouchesNothing` | scripts/publish-private.js:23-27 | an empty tagged version prints the missing-version message and stops before any manifest or publish |
| `Publish.PublishRunCommands` | scripts/publish-private.js:21-71 | a run with a version lists the tags, then publishes as the loop does, reporting its success or its failure and index |
| `Publish.PublishRunChannel` | scripts/publish-private.js:29-60 | every publish of a run uses the channel of the tagged version |
| `Publish.TaggedReleasePublishes` | scripts/publish-private.js:8-37 | with exactly the tag `v<v>` at `HEAD`, the run publishes on the channel of `<v>` |
| `Publish.ReleaseThenPublish` | scripts/utils.js:208-210 | after a completed release of `<v>`, the publish run reads back `<v>` and publishes on its channel |
| `Publish.PatchRepository` | scripts/publish-private.js:77-82 | the method changes the workspace as `PatchSpec` does |
| `Publish.PublishPackage` | scripts/publish-private.js:56-59 | one iteration (patch, then `npm publish` only when the patch went through) changes the workspace as `PublishOne` does |
| `Publish.PublishAllSnoc` | scripts/publish-private.js:40-60 | after a prefix that went through, the next package's iteration alone decides the outcome, and a failure there is reported at that package's index |
| `Publish.PublishPackages` | scripts/publish-private.js:40-60 | the loop, stopping at the first failure, changes the workspace as `PublishAll` does |
| `Publish.RunPublish` | scripts/publish-private.js:21-61 | the method changes the workspace as `PublishRunSpec` does over the publish order, and returns its outcome |

## Left out

- Colours and the `chalk` wrappers: console lines are the plain text.
- The exact shell command strings and their quoting: commands are the datatype `Repository.Command`.
- `execSync` output: the publish command's `inherit` stdio and the diagnostic text of a failing command are not modelled.
- The text `console.error` prints for a rejected `run()` promise, and `process.exit`: outcomes are datatype values.
- `semver.prerelease`'s validation. `Publish.FirstPrerelease` is a plain split after the first `-`, before `+`, on `.`. It assumes a valid version and does not classify an invalid one.
- Numeric pre-release identifiers: `String(prerelease[0])` of a number is its decimal text, which the split already gives.
- Strings are sequences of characters, not UTF-16 code units.
- JavaScript's reordering of integer-like object keys is not modelled; fields keep their parse order.
- JSON numbers are exact rationals. Serialisation details (`spaces: 2`, number formatting) are not modelled.
- `jsonfile`'s file text: a file is either unparsable or a parsed document.
- Repeated keys in a JSON file: `JSON.parse` keeps one property per key, so a parsed document never repeats one. The model's `Json` could, so the release methods require `Repository.Parsed` of the starting state. Every checkout meets it, and the bump keeps it.
- `Promise.all` is modelled as the two rewrites in sequence. They touch different files, so their order does not matter.
- `Release.UpdateImportMapsSpec`: after one rewrite throws, the model lets the other finish. The script no longer awaits it, so it may not finish if the process exits.
- `prompt`, `getPackageVersion` and `fileExists`: thin wrappers over libraries, not used by the modelled steps.
- The rollup configurations, the playground script and the migration script: bundler wiring and file-system scripting outside the release logic.
- `ensureCleanWorkingDirectory` is modelled as a test of the status text; running `git status` and exiting are not.
- `buildDir` and `rootDir` are absolute paths in the scripts. The model uses paths relative to the repository root, as segment lists.
- `git tag` on an existing tag name fails only when the environment says it does; git's own rules are not modelled.
- `Release.UpdatePackageConfigSpec`: the transform is a total function. A throwing transform is not modelled; the scripts swallow its exception and write nothing. The version bump, the only transform passed, never throws.
- `Repository.InsertSorted`: the contract states the set of tags and not their sorted order.

## Findings

| source | as written | input that shows it | evidently intended | confidence | as-written member | corrected member |
|---|---|---|---|---|---|---|
| scripts/utils.js:143-145 | a scoped specifier without `/` is destructured into a missing second segment, which the template literal prints as `undefined` | the bare scope `@remix-run` gives the package name `@remix-run/undefined` | the package name is the specifier itself, with an empty sub-path | not executed | `Specifiers.BareScopeAsWritten` | `Specifiers.EmptySubPath` |

`Specifiers.BareScopeAsWritten` shows the splitter as written giving an empty sub-path with a name that is neither the specifier nor the specifier followed by `/`. `Specifiers.EmptySubPath` proves that the corrected `Specifiers.PackageNameFromSpecifier` always meets that rule. The import map uses the corrected splitter. `Specifiers.SplittersAgreeOnWorkspaceNames` and `ImportMaps.RewriteEntrySplittersAgree` prove that the choice makes no difference to the rewrite. Where the two splitters differ, neither name is a workspace package.
