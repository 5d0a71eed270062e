/** The PKG maker: the target-platform guard, the output path, the options
    handed to the flat-package signer and the artifact it reports. The
    signer and the file system are not modelled; their calls are listed as
    steps. */
module MakerPkg {
  import opened Values
  import opened Paths

  const Darwin := "darwin"
  const Mas := "mas"
  const PkgExtension := ".pkg"
  const AppExtension := ".app"

  const AppKey := "app"
  const PkgKey := "pkg"
  const PlatformKey := "platform"

  /** The platforms the maker targets unless configured otherwise; also the
      only targets `make` accepts. */
  const DefaultPlatforms: seq<string> := [Darwin, Mas]

  /** The signer only runs on a macOS host. */
  predicate IsSupportedOnCurrentPlatform(hostPlatform: string)
  {
    hostPlatform == Darwin
  }

  datatype PkgError = UnsupportedTarget(targetPlatform: string)

  /** The file-system and signer calls `make` performs, in order. */
  datatype PkgStep = EnsureFile(path: string) | SignFlat(options: map<string, Value>)

  datatype PkgMake = PkgMake(steps: seq<PkgStep>, artifacts: seq<string>)

  function OutPath(makeDir: string, appName: string, version: string): string
  {
    Join(makeDir, appName + "-" + version + PkgExtension)
  }

  /** The user configuration with `app`, `pkg` and `platform` forced. */
  function PkgOptions(config: map<string, Value>, dir: string, makeDir: string, appName: string, version: string,
                      targetPlatform: string): (opts: map<string, Value>)
    ensures opts.Keys == config.Keys + {AppKey, PkgKey, PlatformKey}
    ensures opts[AppKey] == Str(Join(dir, appName + AppExtension))
    ensures opts[PkgKey] == Str(OutPath(makeDir, appName, version))
    ensures opts[PlatformKey] == Str(targetPlatform)
    ensures forall k :: k in config && k != AppKey && k != PkgKey && k != PlatformKey ==> opts[k] == config[k]
  {
    Assign(config, map[AppKey := Str(Join(dir, appName + AppExtension)),
                       PkgKey := Str(OutPath(makeDir, appName, version)),
                       PlatformKey := Str(targetPlatform)])
  }

  /** `make`: refuse targets other than darwin and mas; otherwise ensure the
      output file, sign the package into it and report it. */
  function Make(config: map<string, Value>, dir: string, makeDir: string, appName: string, version: string,
                targetPlatform: string): (r: Result<PkgMake, PkgError>)
    ensures r.Err? <==> targetPlatform !in DefaultPlatforms
    ensures r.Err? ==> r.error == UnsupportedTarget(targetPlatform)
    ensures r.Ok? ==> r.value.artifacts == [OutPath(makeDir, appName, version)]
    ensures r.Ok? ==>
              r.value.steps == [EnsureFile(OutPath(makeDir, appName, version)),
                                SignFlat(PkgOptions(config, dir, makeDir, appName, version, targetPlatform))]
  {
    if targetPlatform != Darwin && targetPlatform != Mas then Err(UnsupportedTarget(targetPlatform))
    else
      var outPath := OutPath(makeDir, appName, version);
      Ok(PkgMake([EnsureFile(outPath), SignFlat(PkgOptions(config, dir, makeDir, appName, version, targetPlatform))],
                 [outPath]))
  }

  /** The package the signer writes is the artifact `make` reports, and the
      signer is told the target platform. */
  lemma SignedPackageIsArtifact(config: map<string, Value>, dir: string, makeDir: string, appName: string,
                                version: string, targetPlatform: string)
    requires Make(config, dir, makeDir, appName, version, targetPlatform).Ok?
    ensures var m := Make(config, dir, makeDir, appName, version, targetPlatform).value;
      m.steps[1].SignFlat? && m.steps[1].options[PkgKey] == Str(m.artifacts[0]) &&
      m.steps[1].options[PlatformKey] == Str(targetPlatform) && m.steps[0] == EnsureFile(m.artifacts[0])
  {
  }

  /** Every host that can run the maker is a target it accepts. */
  lemma SupportedHostIsAcceptedTarget(hostPlatform: string, config: map<string, Value>, dir: string,
                                      makeDir: string, appName: string, version: string)
    requires IsSupportedOnCurrentPlatform(hostPlatform)
    ensures Make(config, dir, makeDir, appName, version, hostPlatform).Ok?
  {
  }

  /** The package is written into `makeDir` as `<appName>-<version>.pkg`. */
  lemma OutPathInMakeDir(makeDir: string, appName: string, version: string)
    requires makeDir != [] && Separator !in appName && Separator !in version
    ensures Dirname(OutPath(makeDir, appName, version)) == makeDir
    ensures Basename(OutPath(makeDir, appName, version)) == appName + "-" + version + PkgExtension
  {
    assert Separator !in PkgExtension && Separator !in "-";
    DirnameBasenameJoin(makeDir, appName + "-" + version + PkgExtension);
  }
}
