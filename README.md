# electron-forge configuration and decision logic, in Dafny

This project models the logic electron-forge runs before it hands work to
external tools:

- **Forge configuration resolution (`findConfig`).** It finds the raw
  configuration and resolves `fromBuildIdentifier` selectors. It lays the
  raw fields over the fixed defaults and attaches the `pluginInterface`.
  Reads of unset properties fall back to `ELECTRON_FORGE_...` environment
  variables. Own-property descriptors are synthesised for those, and
  assignments are stored in the shared configuration object.
- **The GitHub and Snapcraft publishers.**
- **The DMG and PKG makers.**
- **The auto-unpack-natives and local-electron plugins.**

Everything the source reads from outside is an explicit parameter:

- the process environment;
- the host platform and arch;
- the existence of files;
- the GitHub release listing;
- the record a configuration script evaluates to.

Calls to the file system and to external tools are returned as step
values.

The modules are:

- `Values`: the JavaScript values the configuration holds, truthiness, property reads, `Object.assign`.
- `Paths`: POSIX join, dirname, basename.
- `MakeResults`: make results and artifact flattening.
- `ForgeConfig`.
- `PublisherGithub`.
- `PublisherSnapcraft`.
- `MakerDmg`.
- `MakerPkg`.
- `AutoUnpackNatives`.
- `LocalElectron`.

The implementation of `findConfig` (`src/util/forge-config`) is not part of
this model. Its behaviour is modelled from its test file,
`packages/api/core/test/fast/forge-config_spec.ts`. Three rules are this
model's own decisions, each chosen to agree with the tests that back it:

- The environment variable for a property path is `ELECTRON_FORGE`,
  followed, for each key, by `_` and the key in upper snake case: an
  underscore at each lower-case-or-digit to capital boundary, every letter
  upper-cased (forge-config_spec.ts:82-92).
- A `fromBuildIdentifier` selector yields its entry for the configuration's
  own `buildIdentifier`. With no entry it yields its default, and with no
  default `undefined`. The chosen value is resolved in turn
  (forge-config_spec.ts:94-119).
- The defaults are `packagerConfig: {}`, `rebuildConfig: {}`, `makers: []`,
  `publishers: []` and `plugins: []`. The raw fields are laid over them one
  level deep (forge-config_spec.ts:15-24).

## Model

| member | source | states |
|---|---|---|
| Values.Assign | packages/maker/dmg/src/MakerDMG.ts:32-38 | `Object.assign`: the result has the keys of both records, a source key wins, and every other target key is kept |
| Values.Field | packages/plugin/auto-unpack-natives/src/AutoUnpackNativesPlugin.ts:26 | a property read gives the record's own value, and `undefined` for a missing key or a non-record |
| Paths.DirnameBasenameJoin | packages/publisher/snapcraft/src/PublisherSnapcraft.ts:26 | joining a directory and a single-segment name can be undone: dirname gives the directory back and basename gives the name |
| Paths.BasenameAfterLast | packages/publisher/github/src/PublisherGithub.ts:96 | the basename is everything after the last separator |
| MakeResults.Flatten | packages/publisher/github/src/PublisherGithub.ts:85-88 | every artifact of every make result is in the flat list, and nothing else is |
| MakeResults.FlattenAppend | packages/publisher/snapcraft/src/PublisherSnapcraft.ts:15-18 | flattening distributes over concatenation, so the flat list keeps the order of the make results |
| MakeResults.FlattenArtifacts | packages/publisher/snapcraft/src/PublisherSnapcraft.ts:15-18 | the accumulating loop computes exactly `Flatten` |
| ForgeConfig.EnvNameShape | packages/api/core/test/fast/forge-config_spec.ts:86-89 | every environment name starts with `ELECTRON_FORGE` and has no lower-case letter; a name of a non-empty path continues with `_` right after the prefix |
| ForgeConfig.EnvNameKeyByKey | packages/api/core/test/fast/forge-config_spec.ts:86-89 | the name is `ELECTRON_FORGE` followed, key by key in path order, by `_` and the key in upper snake case |
| ForgeConfig.EnvNameOfTwoKeys | packages/api/core/test/fast/forge-config_spec.ts:86-89 | the name of `a.b` is `ELECTRON_FORGE_` + UPPER_SNAKE(a) + `_` + UPPER_SNAKE(b) |
| ForgeConfig.UpperCaseAt | packages/api/core/test/fast/forge-config_spec.ts:86-89 | upper-casing keeps the length and maps each character on its own |
| ForgeConfig.SnakeAfterShape | packages/api/core/test/fast/forge-config_spec.ts:86-89 | snake-casing leaves no lower-case letter and adds at most one underscore per character |
| ForgeConfig.UpperSnakeWithoutCapitals | packages/api/core/test/fast/forge-config_spec.ts:86 | a key without capitals is only upper-cased, with no underscore (`s3` becomes `S3`) |
| ForgeConfig.SnakeCapitalised | packages/api/core/test/fast/forge-config_spec.ts:86-87 | capitalised words, each starting at a word boundary, become `_` and the word upper-cased, word by word |
| ForgeConfig.CamelCaseKey | packages/api/core/test/fast/forge-config_spec.ts:86-87 | any camel-case key (a first word without capitals, then any number of capitalised words) becomes its words upper-cased and joined by `_` |
| ForgeConfig.UpperSnakeS3 | packages/api/core/test/fast/forge-config_spec.ts:86 | `s3` becomes `S3` |
| ForgeConfig.EnvNameSecretAccessKey | packages/api/core/test/fast/forge-config_spec.ts:34 | `s3.secretAccessKey` is read from `ELECTRON_FORGE_S3_SECRET_ACCESS_KEY` |
| ForgeConfig.EnvNameBaseUrl | packages/api/core/test/fast/forge-config_spec.ts:87 | `electronReleaseServer.baseUrl` is read from `ELECTRON_FORGE_ELECTRON_RELEASE_SERVER_BASE_URL` |
| ForgeConfig.BuildIdentifier | packages/api/core/test/fast/forge-config_spec.ts:62-63 | there is an identifier exactly when the raw configuration has a string `buildIdentifier`, and it is that string |
| ForgeConfig.Resolve | packages/api/core/test/fast/forge-config_spec.ts:94-118 | no selector survives, records keep their keys, and every value that is neither a record nor a selector (arrays, regexps, functions) comes back unchanged. That the selector-free fields of a record are kept is stated by `ResolveSelectorFree` and `NestedSelector` |
| ForgeConfig.ResolveSelectorFree | packages/api/core/test/fast/forge-config_spec.ts:116-126 | a value without selectors is left exactly as it is |
| ForgeConfig.ResolveIdempotent | packages/api/core/test/fast/forge-config_spec.ts:94-114 | resolving twice gives the same result as resolving once |
| ForgeConfig.SelectorChoice | packages/api/core/test/fast/forge-config_spec.ts:94-114 | a selector yields its entry for the identifier; with no entry it yields its fallback, and `undefined` when it has none |
| ForgeConfig.NestedSelector | packages/api/core/test/fast/forge-config_spec.ts:97-108 | a selector nested in records is replaced in place by its entry, and every selector-free sibling field is kept as it is |
| ForgeConfig.FindConfigPassThrough | packages/api/core/test/fast/forge-config_spec.ts:115-126 | a selector-free top-level field, such as a regexp or a function, comes out of `findConfig` unchanged, whatever selectors its siblings hold |
| ForgeConfig.FindConfigResolvesField | packages/api/core/test/fast/forge-config_spec.ts:94-119 | every raw top-level field other than `pluginInterface` appears in the result, resolved with the configuration's own `buildIdentifier` |
| ForgeConfig.FindConfigSelectorWithoutEntry | packages/api/core/test/fast/forge-config_spec.ts:111-114 | a top-level selector with no entry for the configuration's own `buildIdentifier` gives its default, or `undefined` when it has none |
| ForgeConfig.FindConfigUsesOwnIdentifier | packages/api/core/test/fast/forge-config_spec.ts:94-96 | a top-level selector in the resolved configuration becomes its entry for the configuration's own `buildIdentifier` |
| ForgeConfig.FindConfigUsesOwnIdentifierNested | packages/api/core/test/fast/forge-config_spec.ts:94-108 | a selector inside a top-level record becomes, in place, its entry for the configuration's own `buildIdentifier` |
| ForgeConfig.LocateSource | packages/api/core/test/fast/forge-config_spec.ts:55-80 | a record in `config.forge` is used directly, and a string names a script. With `config.forge` unset, `forge.config.js` is used when it exists. Any other value is an error, and only that |
| ForgeConfig.LoadRawConfig | packages/api/core/test/fast/forge-config_spec.ts:55-80 | an inline record is the raw configuration. A truthy string names a script, which gives the record it evaluates to or a load error naming it. A falsy `config.forge` loads `forge.config.js` the same way when that file exists, and gives `{}` when it does not. Any other truthy value is the not-an-object error |
| ForgeConfig.Overlay | packages/api/core/test/fast/forge-config_spec.ts:6-23 | the keys are the defaults', the raw ones and `pluginInterface`. Raw fields win, the defaults fill the rest, and the plugin interface is attached |
| ForgeConfig.FindConfigShape | packages/api/core/test/fast/forge-config_spec.ts:26-29 | `FindConfig` (`findConfig` on a loaded raw configuration), via this lemma: every resolved configuration holds the default keys and `pluginInterface`, and no selector |
| ForgeConfig.FindConfigOverlay | packages/api/core/test/fast/forge-config_spec.ts:56-67 | without selectors the result is the defaults shallowly overlaid by the raw fields (nested records replace the defaults wholesale) plus the plugin interface |
| ForgeConfig.NoConfigGivesDefaults | packages/api/core/test/fast/forge-config_spec.ts:6-12 | with no configuration anywhere, the result is exactly the defaults and the plugin interface |
| ForgeConfig.ReadField | packages/api/core/test/fast/forge-config_spec.ts:82-92 | one property read: the own value wins, else the environment variable for the path, else `undefined` |
| ForgeConfig.StoredValueWins | packages/api/core/test/fast/forge-config_spec.ts:116-126 | `Get` (a chain of reads through the environment-fallback layer) and `Lookup` (the stored value at a path), via this lemma: a stored value reads back unchanged whatever the environment holds |
| ForgeConfig.EnvironmentFallback | packages/api/core/test/fast/forge-config_spec.ts:82-92 | an unstored key under a stored record reads its environment variable when it is set, and `undefined` otherwise |
| ForgeConfig.GetOwnPropertyDescriptor | packages/api/core/test/fast/forge-config_spec.ts:44-49 | a descriptor is always writable, enumerable and configurable and holds the value a read returns; with no descriptor, a read gives `undefined` |
| ForgeConfig.HasOwnPropertyExactly | packages/api/core/test/fast/forge-config_spec.ts:34-36 | `hasOwnProperty` holds exactly when the key is stored or its variable is set; an environment-only key has the descriptor `{writable, enumerable, configurable: true, value: <variable>}` |
| ForgeConfig.SetThenLookup | packages/api/core/test/fast/forge-config_spec.ts:43 | `SetAt` (an assignment through the layer), via this lemma: after an assignment the written value is stored at its path, even when it replaces a record by a string |
| ForgeConfig.WriteWins | packages/api/core/test/fast/forge-config_spec.ts:50-51 | after an assignment the path reads the written value whatever variables are set |
| ForgeConfig.SetAtAlongPath | packages/api/core/test/fast/forge-config_spec.ts:43 | along the written path each record is the old one with one field replaced |
| ForgeConfig.SetLeavesOthers | packages/api/core/test/fast/forge-config_spec.ts:40-53 | an assignment changes no stored value and no read off its path |
| ForgeConfig.ResolvedConfig.constructor | packages/api/core/test/fast/forge-config_spec.ts:15-29 | the object holds the resolved configuration, which has the default keys and `pluginInterface` |
| ForgeConfig.ResolvedConfig.Set | packages/api/core/test/fast/forge-config_spec.ts:43-51 | an assignment succeeds exactly when the parent is a stored record. It stores the value there and changes nothing on failure. Afterwards the path reads the value under every environment |
| ForgeConfig.EmptyRecordScenario | packages/api/core/test/fast/forge-config_spec.ts:82-92 | a key below an empty record reads `undefined`, then the value of its variable once that is set; it can be assigned, and the assignment wins over the variable |
| PublisherGithub.Versions | packages/publisher/github/src/PublisherGithub.ts:31-37 | the bucket keys: every result's version, only those, each once |
| PublisherGithub.VersionsFirstSeen | packages/publisher/github/src/PublisherGithub.ts:31-37 | the bucket keys are in first-seen order: each version occurs in the results before the first result of any version listed after it |
| PublisherGithub.WithVersionExactlyOnce | packages/publisher/github/src/PublisherGithub.ts:31-37 | each make result is in the bucket of its version as often as in the input, and in no other bucket |
| PublisherGithub.WithVersionUnseen | packages/publisher/github/src/PublisherGithub.ts:33-35 | a version no result carries has an empty bucket |
| PublisherGithub.GroupStep | packages/publisher/github/src/PublisherGithub.ts:31-37 | one more result adds its version to the keys if new and appends it to its own bucket only |
| PublisherGithub.GroupByVersion | packages/publisher/github/src/PublisherGithub.ts:31-37 | the loop builds exactly the buckets `WithVersion` describes, keyed by the versions in first-seen order |
| PublisherGithub.FindRelease | packages/publisher/github/src/PublisherGithub.ts:56 | none exactly when no release has the tag, and otherwise the first release with it |
| PublisherGithub.NewRelease | packages/publisher/github/src/PublisherGithub.ts:64-71 | tag and name are both `v<version>`; draft unless `draft` is exactly `false`; prerelease only when `prerelease` is exactly `true` |
| PublisherGithub.ChooseRelease | packages/publisher/github/src/PublisherGithub.ts:50-77 | a non-404 error is rethrown unchanged. Creation happens exactly on a 404 or when no release carries the tag. Otherwise the first listed release with the tag is used, as `find` returns it |
| PublisherGithub.PendingUploadsExactly | packages/publisher/github/src/PublisherGithub.ts:90-109 | an upload happens for an artifact exactly when its basename is not an asset name, and it goes to the release's tag under that basename |
| PublisherGithub.UploadArtifacts | packages/publisher/github/src/PublisherGithub.ts:79-109 | the upload loop performs exactly the pending uploads, and the counter ends equal to the number of artifacts |
| PublisherGithub.UploadSteps | packages/publisher/github/src/PublisherGithub.ts:99-107 | each upload becomes exactly one upload step, in order |
| PublisherGithub.PublishVersion | packages/publisher/github/src/PublisherGithub.ts:47-110 | one release iteration produces the steps and the error `VersionSteps` describes |
| PublisherGithub.PublishReleases | packages/publisher/github/src/PublisherGithub.ts:46-111 | the release loop over the buckets produces exactly the steps of `PublishSteps` and stops at the first error |
| PublisherGithub.PublishStepsUnfold | packages/publisher/github/src/PublisherGithub.ts:46-111 | `VersionSteps` (one release iteration) and `PublishSteps` (the loop over the versions), via this lemma: the steps over `order[i..]` are those of version `order[i]`, followed, unless it failed, by those of the rest |
| PublisherGithub.Publish | packages/publisher/github/src/PublisherGithub.ts:24-112 | without a repository that has a truthy owner and name, it fails before any request. Otherwise it processes the versions in first-seen order as `PublishSteps` describes |
| PublisherGithub.PublishUploadsTagged | packages/publisher/github/src/PublisherGithub.ts:46-111 | every upload of `publish` goes to the release tagged `v<version>` of a processed version. It is an artifact of that version's make results, named by its basename |
| PublisherGithub.UploadsAppend | packages/publisher/github/src/PublisherGithub.ts:46-111 | the uploads of two step sequences are the uploads of each, in order |
| PublisherGithub.UploadsOfUploadSteps | packages/publisher/github/src/PublisherGithub.ts:99-107 | the upload steps record exactly the uploads they were made from |
| PublisherSnapcraft.SnapFilesExactly | packages/publisher/snapcraft/src/PublisherSnapcraft.ts:20 | `SnapFiles` (the `.snap` filter), via this lemma: the snap list holds exactly the artifacts ending in `.snap` |
| PublisherSnapcraft.SnapFilesAppend | packages/publisher/snapcraft/src/PublisherSnapcraft.ts:20 | filtering keeps the original order (it distributes over concatenation) |
| PublisherSnapcraft.SnapFilesIdempotent | packages/publisher/snapcraft/src/PublisherSnapcraft.ts:20 | filtering the snap list again changes nothing |
| PublisherSnapcraft.CredentialsPathParts | packages/publisher/snapcraft/src/PublisherSnapcraft.ts:26 | `CredentialsPath`, via this lemma: the credentials file is `snapcraft.cfg` in the `.snapcraft` directory of `dir` |
| PublisherSnapcraft.Publish | packages/publisher/snapcraft/src/PublisherSnapcraft.ts:14-37 | no snaps fails first and missing credentials second. It succeeds exactly when both checks pass, and then pushes exactly the snap list from `dir` with the configuration |
| MakerDmg.SupportedHostIsDefaultTarget | packages/maker/dmg/src/MakerDMG.ts:12-17 | only a darwin host is supported, it is a default target, and `mas` is a default target that is not a supported host |
| MakerDmg.DmgOptions | packages/maker/dmg/src/MakerDMG.ts:32-38 | `overwrite: true` and `name: appName` are defaults the user configuration overrides. `appPath` and `out` are always forced, with `out` the directory of the output path |
| MakerDmg.Make | packages/maker/dmg/src/MakerDMG.ts:19-47 | it ensures the output file and runs the tool with the merged options. When `name` is falsy the steps are exactly those two, then ensuring the forge default path and renaming the output to it, and the one artifact is the forge default path. Otherwise the steps are the first two only and the artifact is the path the tool reports |
| MakerDmg.OutputInMakeDir | packages/maker/dmg/src/MakerDMG.ts:28-37 | `ImageName` (`name`, else `appName`) and `OutPath`, via this lemma: the image is written into `makeDir` as `<name or appName>.dmg`, and `out` is `makeDir` |
| MakerDmg.RenameStaysInMakeDir | packages/maker/dmg/src/MakerDMG.ts:28-29 | an unnamed image is renamed within `makeDir` from `<appName>.dmg` to `<appName>-<version>.dmg` |
| MakerDmg.EmptyNameMismatch | packages/maker/dmg/src/MakerDMG.ts:28-42 | with `name: ""` the tool is given the empty name, while the output path and the rename use `<appName>.dmg` |
| MakerDmg.ToolNameMatchesOutPath | packages/maker/dmg/src/MakerDMG.ts:28-34 | when `name` is unset or a non-empty string, the tool is given the image name of the output path |
| MakerPkg.PkgOptions | packages/maker/pkg/src/MakerPKG.ts:34-38 | the user configuration with `app`, `pkg` (the output path) and `platform` (the target) forced; every other key is kept |
| MakerPkg.Make | packages/maker/pkg/src/MakerPKG.ts:19-42 | it fails exactly when the target is not darwin or mas. Otherwise it ensures the output file, signs into it and returns exactly `[outPath]` |
| MakerPkg.SignedPackageIsArtifact | packages/maker/pkg/src/MakerPKG.ts:30-41 | the package the signer writes is the returned artifact, and the signer is told the target platform |
| MakerPkg.SupportedHostIsAcceptedTarget | packages/maker/pkg/src/MakerPKG.ts:12-28 | every supported host is a target `make` accepts |
| MakerPkg.OutPathInMakeDir | packages/maker/pkg/src/MakerPKG.ts:30 | the package is `<appName>-<version>.pkg` inside `makeDir` |
| AutoUnpackNatives.GetHook | packages/plugin/auto-unpack-natives/src/AutoUnpackNativesPlugin.ts:9-14 | a hook exactly for `resolveForgeConfig` |
| AutoUnpackNatives.NewUnpackKeepsExisting | packages/plugin/auto-unpack-natives/src/AutoUnpackNativesPlugin.ts:26-32 | a truthy `unpack` `u` becomes `{u,**/*.node}`; otherwise it becomes `**/*.node` |
| AutoUnpackNatives.DefinedPair | packages/plugin/auto-unpack-natives/src/AutoUnpackNativesPlugin.ts:20-25 | when `packagerConfig.asar` reads a defined value, `packagerConfig` is a stored record and `asar` can be assigned |
| AutoUnpackNatives.UnpackSettable | packages/plugin/auto-unpack-natives/src/AutoUnpackNativesPlugin.ts:23-31 | once `asar` is a record, `asar.unpack` can be assigned |
| AutoUnpackNatives.OutcomeErrors | packages/plugin/auto-unpack-natives/src/AutoUnpackNativesPlugin.ts:17-25 | `Outcome` (the `resolveForgeConfig` hook on the stored configuration), via this lemma: a falsy `asar` (including a missing `packagerConfig`) is refused. `true` and records are accepted. Any other truthy value cannot hold `unpack` |
| AutoUnpackNatives.MissingPackagerConfigBecomesEmpty | packages/plugin/auto-unpack-natives/src/AutoUnpackNativesPlugin.ts:17-22 | a missing or falsy `packagerConfig` is set to `{}`, then `asar` is refused, and the configuration keeps the `{}` |
| AutoUnpackNatives.AsarAfterFirstStep | packages/plugin/auto-unpack-natives/src/AutoUnpackNativesPlugin.ts:17-20 | replacing a falsy `packagerConfig` by `{}` does not change what `asar` reads |
| AutoUnpackNatives.OutcomeUnpack | packages/plugin/auto-unpack-natives/src/AutoUnpackNativesPlugin.ts:23-32 | on success `asar` is a record whose `unpack` is the combined pattern built from the previous `unpack` |
| AutoUnpackNatives.OutcomeLeavesOtherFields | packages/plugin/auto-unpack-natives/src/AutoUnpackNativesPlugin.ts:16-33 | no top-level field other than `packagerConfig` changes, stored or read |
| AutoUnpackNatives.OutcomeLeavesPackagerFields | packages/plugin/auto-unpack-natives/src/AutoUnpackNativesPlugin.ts:16-33 | inside an existing `packagerConfig`, no field other than `asar` changes |
| AutoUnpackNatives.OutcomeLeavesAsarFields | packages/plugin/auto-unpack-natives/src/AutoUnpackNativesPlugin.ts:26-32 | inside an existing `asar` record, no field other than `unpack` changes, stored or read |
| AutoUnpackNatives.ResolveForgeConfig | packages/plugin/auto-unpack-natives/src/AutoUnpackNativesPlugin.ts:16-34 | the hook updates the shared configuration in place, step by step, to exactly the state and error `Outcome` describes |
| LocalElectron.EnabledByDefault | packages/plugin/local-electron/src/LocalElectronPlugin.ts:9-14 | the plugin is enabled when `enabled` is undefined or truthy, and `false` disables it |
| LocalElectron.GetHook | packages/plugin/local-electron/src/LocalElectronPlugin.ts:24-29 | a hook exactly for `packageAfterExtract` |
| LocalElectron.CheckPlatform | packages/plugin/local-electron/src/LocalElectronPlugin.ts:31-35 | fails exactly when `electronPlatform \|\| host platform` differs from the required platform, naming both |
| LocalElectron.CheckArch | packages/plugin/local-electron/src/LocalElectronPlugin.ts:37-41 | fails exactly when `electronArch \|\| host arch` differs from the required arch, naming both |
| LocalElectron.HostPlatformCheck | packages/plugin/local-electron/src/LocalElectronPlugin.ts:16-19 | checked against the host platform, the check fails only when `electronPlatform` is set to another platform |
| LocalElectron.AfterExtractGuards | packages/plugin/local-electron/src/LocalElectronPlugin.ts:43-58 | `AfterExtractSteps` (the `packageAfterExtract` hook), via this lemma: nothing happens when disabled. Otherwise the platform check comes before the arch check, and `buildPath` is removed and replaced by the local build exactly when both pass |
| LocalElectron.ProcessEnv.constructor | packages/plugin/local-electron/src/LocalElectronPlugin.ts:19 | the environment object holds the given variables |
| LocalElectron.StartLogic | packages/plugin/local-electron/src/LocalElectronPlugin.ts:16-22 | it never returns true. It fails exactly when enabled and `electronPlatform` is set to another platform than the host's. Otherwise, when enabled, it sets `ELECTRON_OVERRIDE_DIST_PATH` to `electronPath` and changes nothing else |

## Left out

- The implementation of `findConfig` (`src/util/forge-config`) is not part of this model. Its behaviour is modelled from its test file. In particular, the environment fallback applies only to keys that are not own properties of a stored record, matching the descriptor test (forge-config_spec.ts:40-53).
- A read through a value that is not a record gives `undefined` in `Get` and `ReadField`. In JavaScript, reading a property of `undefined` throws, and arrays and strings can be indexed.
- `ResolvedConfig.Set` refuses an assignment whose parent is any value that is not a stored record: arrays, functions, regexps and the plugin interface. JavaScript accepts a property on all of them.
- `UpperCase` and `UpperSnake` handle ASCII letters only; `toUpperCase` also maps other letters.
- `HasEntry`: a selector entry stored as explicit `undefined` counts as missing, so the default is used.
- Loading `package.json` and evaluating JavaScript configuration modules. The raw `config.forge` value and the records scripts evaluate to are parameters. A script that cannot be evaluated is a load error.
- Callable exports and regexps are opaque identifiers. That they stay callable or keep matching is captured only as "returned unchanged".
- Selectors inside arrays are not resolved: sequences are opaque to resolution.
- Numbers and `null` are not among the modelled values.
- `Values.Display`: the string form of values other than strings, booleans and `undefined` is not modelled: they all print as `[object]`, where JavaScript prints `[object Object]` for a record and the elements for an array. It matters for a non-string `unpack` pattern and for a truthy non-string DMG `name`, which `ImageName` renders.
- Network calls of the GitHub publisher (`listReleases`, `createRelease`, `uploadReleaseAsset`) and the client construction:
  - The listing is an oracle from version to outcome.
  - Creation and upload are recorded steps that always succeed. A failed upload is not modelled; in the source it rejects an `async` executor inside `new Promise`, so that promise never settles and `Promise.all` does not finish.
  - A created release starts with no assets.
  - `mime.lookup`, `fs.stat`, the token and the octokit options are not modelled.
- PublisherGithub.UploadArtifacts: the uploads of `Promise.all` run concurrently in the source; the model performs them one after another, in order.
- PublisherGithub.Versions: the buckets are visited in first-seen order. That is `Object.keys` order except for integer-like version strings, which JavaScript lists first in numeric order.
- The file system and the external tools are recorded as steps or decided by an oracle (`pathExists`), never performed. This covers `ensureFile`, `fs.rename`, `fs.remove`, `fs.copy`, `electron-installer-dmg`, `electron-osx-sign`'s `flatAsync` and `Snapcraft.run`.
- `Paths.Basename`: a path ending in `/` has the empty basename, where `path.basename("a/")` gives `"a"`. Artifact paths never end in a separator.
- `path.resolve` is modelled as a plain join with `/`. Resolution against the working directory and normalisation of `..` are not modelled.
- The spinner texts and the `ora-handler` plumbing are not modelled, and neither is the type-only PKG `Config.ts`.
- The AutoUnpackNatives plugin reads and writes the stored configuration directly. Its reads do not go through the environment fallback.
- AutoUnpackNatives.OutcomeErrors: a truthy `asar` that is neither `true` nor a record is reported as an error (`AsarNotObject`). This covers any value that is not a record: arrays, functions, regexps and the plugin interface. In strict-mode JavaScript, assigning `unpack` on a string or boolean throws, but all of those would accept the property.
- LocalElectron.StartLogic: an `electronPath` left undefined is modelled as a string. JavaScript would store the text `"undefined"` in the environment.
