/** The DMG maker: the output paths it derives, the options it hands to the
    disk-image tool, and the artifact it reports. The tool and the file
    system are not modelled; their calls are listed as steps, and the path
    the tool reports is a parameter. */
module MakerDmg {
  import opened Values
  import opened Paths

  const Darwin := "darwin"
  const Mas := "mas"
  const DmgExtension := ".dmg"
  const AppExtension := ".app"

  const NameKey := "name"
  const OverwriteKey := "overwrite"
  const AppPathKey := "appPath"
  const OutKey := "out"

  /** The platforms the maker targets unless configured otherwise. */
  const DefaultPlatforms: seq<string> := [Darwin, Mas]

  /** The disk-image tool only runs on a macOS host. */
  predicate IsSupportedOnCurrentPlatform(hostPlatform: string)
  {
    hostPlatform == Darwin
  }

  /** Every host that can run the maker is among its default targets. */
  lemma SupportedHostIsDefaultTarget(hostPlatform: string)
    ensures IsSupportedOnCurrentPlatform(hostPlatform) ==> hostPlatform in DefaultPlatforms
    ensures Mas in DefaultPlatforms && !IsSupportedOnCurrentPlatform(Mas)
  {
  }

  /** The file-system and tool calls `make` performs, in order. */
  datatype DmgStep = EnsureFile(path: string) | RunInstaller(options: map<string, Value>) | Rename(from: string, to: string)

  datatype DmgMake = DmgMake(steps: seq<DmgStep>, artifacts: seq<string>)

  /** `config.name || appName`: the base name of the image the tool
      writes. */
  function ImageName(config: map<string, Value>, appName: string): string
  {
    var name := Field(Record(config), NameKey);
    if Truthy(name) then Display(name) else appName
  }

  function OutPath(config: map<string, Value>, makeDir: string, appName: string): string
  {
    Join(makeDir, ImageName(config, appName) + DmgExtension)
  }

  /** Where forge keeps an image whose name was not configured. */
  function ForgeDefaultOutPath(makeDir: string, appName: string, version: string): string
  {
    Join(makeDir, appName + "-" + version + DmgExtension)
  }

  function AppPath(dir: string, appName: string): string
  {
    Join(dir, appName + AppExtension)
  }

  /** The options for the tool: `overwrite` and `name` are defaults the
      user configuration overrides, and `appPath` and `out` are forced. */
  function DmgOptions(config: map<string, Value>, dir: string, makeDir: string, appName: string): (opts: map<string, Value>)
    ensures opts.Keys == config.Keys + {OverwriteKey, NameKey, AppPathKey, OutKey}
    ensures opts[AppPathKey] == Str(AppPath(dir, appName))
    ensures opts[OutKey] == Str(Dirname(OutPath(config, makeDir, appName)))
    ensures forall k :: k in config && k != AppPathKey && k != OutKey ==> opts[k] == config[k]
    ensures OverwriteKey !in config ==> opts[OverwriteKey] == Bool(true)
    ensures NameKey !in config ==> opts[NameKey] == Str(appName)
  {
    OptionKeysDistinct();
    var defaults := map[OverwriteKey := Bool(true), NameKey := Str(appName)];
    var forced := map[AppPathKey := Str(AppPath(dir, appName)), OutKey := Str(Dirname(OutPath(config, makeDir, appName)))];
    var merged := Assign(defaults, config);
    assert defaults.Keys == {OverwriteKey, NameKey} && forced.Keys == {AppPathKey, OutKey};
    Assign(merged, forced)
  }

  /** The option names `make` sets are four different names. */
  lemma OptionKeysDistinct()
    ensures OverwriteKey != NameKey && OverwriteKey != AppPathKey && OverwriteKey != OutKey
    ensures NameKey != AppPathKey && NameKey != OutKey && AppPathKey != OutKey
  {
    assert OverwriteKey[0] != NameKey[0] && OverwriteKey[0] != AppPathKey[0] && NameKey[0] != AppPathKey[0];
    assert |OutKey| != |OverwriteKey| && |OutKey| != |NameKey| && |OutKey| != |AppPathKey|;
  }

  /** `make`: ensure the output file, run the tool, and, when no name was
      configured, move the image to the forge default path and report that;
      otherwise report the path the tool returned (`dmgPath`). */
  function Make(config: map<string, Value>, dir: string, makeDir: string, appName: string, version: string,
                dmgPath: string): (m: DmgMake)
    ensures |m.artifacts| == 1
    ensures |m.steps| >= 2
    ensures m.steps[0] == EnsureFile(OutPath(config, makeDir, appName))
    ensures m.steps[1] == RunInstaller(DmgOptions(config, dir, makeDir, appName))
    ensures !Truthy(Field(Record(config), NameKey)) ==>
      m.artifacts == [ForgeDefaultOutPath(makeDir, appName, version)] &&
      m.steps == [EnsureFile(OutPath(config, makeDir, appName)), RunInstaller(DmgOptions(config, dir, makeDir, appName)),
                  EnsureFile(ForgeDefaultOutPath(makeDir, appName, version)),
                  Rename(OutPath(config, makeDir, appName), ForgeDefaultOutPath(makeDir, appName, version))]
    ensures Truthy(Field(Record(config), NameKey)) ==> m.artifacts == [dmgPath] && |m.steps| == 2
  {
    var outPath := OutPath(config, makeDir, appName);
    var run := [EnsureFile(outPath), RunInstaller(DmgOptions(config, dir, makeDir, appName))];
    if !Truthy(Field(Record(config), NameKey)) then
      var forgeDefault := ForgeDefaultOutPath(makeDir, appName, version);
      DmgMake(run + [EnsureFile(forgeDefault), Rename(outPath, forgeDefault)], [forgeDefault])
    else
      DmgMake(run, [dmgPath])
  }

  /** The image is written into `makeDir` itself: `out` is `makeDir` and the
      file is named after the image name, as long as that name is a single
      path segment. */
  lemma OutputInMakeDir(config: map<string, Value>, dir: string, makeDir: string, appName: string)
    requires makeDir != [] && Separator !in ImageName(config, appName)
    ensures DmgOptions(config, dir, makeDir, appName)[OutKey] == Str(makeDir)
    ensures Basename(OutPath(config, makeDir, appName)) == ImageName(config, appName) + DmgExtension
  {
    assert Separator !in DmgExtension;
    DirnameBasenameJoin(makeDir, ImageName(config, appName) + DmgExtension);
  }

  /** The rename of an unnamed image stays inside `makeDir` and only adds
      the version to the file name. */
  lemma RenameStaysInMakeDir(config: map<string, Value>, makeDir: string, appName: string, version: string)
    requires makeDir != [] && Separator !in appName && Separator !in version
    requires !Truthy(Field(Record(config), NameKey))
    ensures Dirname(ForgeDefaultOutPath(makeDir, appName, version)) == Dirname(OutPath(config, makeDir, appName)) == makeDir
    ensures Basename(OutPath(config, makeDir, appName)) == appName + DmgExtension
    ensures Basename(ForgeDefaultOutPath(makeDir, appName, version)) == appName + "-" + version + DmgExtension
  {
    assert Separator !in DmgExtension && Separator !in "-";
    DirnameBasenameJoin(makeDir, appName + DmgExtension);
    DirnameBasenameJoin(makeDir, appName + "-" + version + DmgExtension);
  }

  /** A configured empty `name` reaches the tool, since it overrides the
      default, while the output path and the rename use `appName`, since
      the empty string is falsy: the rename moves `<appName>.dmg`, the file
      `ensureFile` created, although the tool was given another name. */
  lemma EmptyNameMismatch(config: map<string, Value>, dir: string, makeDir: string, appName: string,
                          version: string, dmgPath: string)
    requires NameKey in config && config[NameKey] == Str("") && appName != ""
    ensures DmgOptions(config, dir, makeDir, appName)[NameKey] == Str("")
    ensures ImageName(config, appName) == appName
    ensures DmgOptions(config, dir, makeDir, appName)[NameKey] != Str(ImageName(config, appName))
    ensures Make(config, dir, makeDir, appName, version, dmgPath).steps[3] ==
      Rename(Join(makeDir, appName + DmgExtension), ForgeDefaultOutPath(makeDir, appName, version))
  {
  }

  /** When the configured name is absent or a non-empty string, the name
      handed to the tool is the base name of the output path. */
  lemma ToolNameMatchesOutPath(config: map<string, Value>, dir: string, makeDir: string, appName: string)
    requires NameKey !in config || (config[NameKey].Str? && config[NameKey].s != "")
    ensures DmgOptions(config, dir, makeDir, appName)[NameKey] == Str(ImageName(config, appName))
  {
  }
}
