/** The local-electron plugin: it replaces the packaged Electron with a
    locally built one, after checking that the local build was made for the
    platform and arch being packaged. The host platform and arch are
    parameters; `process.env` is an object the plugin writes; the file-system
    calls of `afterExtract` are returned as steps. */
module LocalElectron {
  import opened Values

  const OverrideDistPathVar := "ELECTRON_OVERRIDE_DIST_PATH"
  const PackageAfterExtractHook := "packageAfterExtract"

  /** The plugin configuration. `enabled` is any configuration value;
      `electronPlatform` and `electronArch` are empty when not set, since
      `||` treats an empty string like a missing one. */
  datatype LocalElectronConfig = LocalElectronConfig(
    enabled: Value, electronPath: string, electronPlatform: string, electronArch: string)

  /** The platform and arch of the running process. */
  datatype Host = Host(platform: string, arch: string)

  datatype LocalElectronError =
    | PlatformMismatch(requiredPlatform: string, localPlatform: string)
    | ArchMismatch(requiredArch: string, localArch: string)

  datatype FsStep = Remove(path: string) | Copy(from: string, to: string)

  /** The only hook the plugin provides. */
  datatype Hook = AfterExtract

  /** The `enabled` getter: `true` when the option is undefined, the option
      itself otherwise. */
  function Enabled(config: LocalElectronConfig): Value
  {
    if config.enabled == Undefined then Bool(true) else config.enabled
  }

  /** The plugin acts unless `enabled` is set to a falsy value. */
  lemma EnabledByDefault(config: LocalElectronConfig)
    ensures Truthy(Enabled(config)) <==> config.enabled == Undefined || Truthy(config.enabled)
    ensures config.enabled == Bool(false) ==> !Truthy(Enabled(config))
  {
  }

  /** `getHook`: `afterExtract` for `packageAfterExtract`, `null`
      otherwise. */
  function GetHook(name: string): (h: Option<Hook>)
    ensures h.Some? <==> name == PackageAfterExtractHook
  {
    if name == PackageAfterExtractHook then Some(AfterExtract) else None
  }

  /** The platform the local Electron was built for. */
  function LocalPlatform(config: LocalElectronConfig, host: Host): string
  {
    if config.electronPlatform != "" then config.electronPlatform else host.platform
  }

  function LocalArch(config: LocalElectronConfig, host: Host): string
  {
    if config.electronArch != "" then config.electronArch else host.arch
  }

  /** `checkPlatform`: fails, naming both platforms, exactly when the local
      platform is not the required one. */
  function CheckPlatform(config: LocalElectronConfig, host: Host, platform: string): (r: Option<LocalElectronError>)
    ensures r.Some? <==> LocalPlatform(config, host) != platform
    ensures r.Some? ==> r.value == PlatformMismatch(platform, LocalPlatform(config, host))
  {
    var local := LocalPlatform(config, host);
    if local != platform then Some(PlatformMismatch(platform, local)) else None
  }

  /** `checkArch`: fails, naming both arches, exactly when the local arch is
      not the required one. */
  function CheckArch(config: LocalElectronConfig, host: Host, arch: string): (r: Option<LocalElectronError>)
    ensures r.Some? <==> LocalArch(config, host) != arch
    ensures r.Some? ==> r.value == ArchMismatch(arch, LocalArch(config, host))
  {
    var local := LocalArch(config, host);
    if local != arch then Some(ArchMismatch(arch, local)) else None
  }

  /** Checked against the host's own platform, the check fails only when
      `electronPlatform` is set to another platform. */
  lemma HostPlatformCheck(config: LocalElectronConfig, host: Host)
    ensures CheckPlatform(config, host, host.platform).Some? <==>
      config.electronPlatform != "" && config.electronPlatform != host.platform
  {
  }

  /** `afterExtract`: nothing when disabled; otherwise the platform check,
      then the arch check, then the build's Electron is removed and the local
      one copied in its place. */
  function AfterExtractSteps(config: LocalElectronConfig, host: Host, buildPath: string, platform: string,
                             arch: string): (r: Result<seq<FsStep>, LocalElectronError>)
  {
    if !Truthy(Enabled(config)) then Ok([])
    else if CheckPlatform(config, host, platform).Some? then Err(CheckPlatform(config, host, platform).value)
    else if CheckArch(config, host, arch).Some? then Err(CheckArch(config, host, arch).value)
    else Ok([Remove(buildPath), Copy(config.electronPath, buildPath)])
  }

  /** `buildPath` is touched exactly when the plugin is enabled and both
      checks pass; a platform mismatch is reported before an arch mismatch;
      a disabled plugin never fails. */
  lemma AfterExtractGuards(config: LocalElectronConfig, host: Host, buildPath: string, platform: string, arch: string)
    ensures var r := AfterExtractSteps(config, host, buildPath, platform, arch);
      (r.Ok? && r.value != [] <==>
        Truthy(Enabled(config)) && LocalPlatform(config, host) == platform && LocalArch(config, host) == arch) &&
      (!Truthy(Enabled(config)) ==> r == Ok([])) &&
      (r.Err? <==> Truthy(Enabled(config)) && (LocalPlatform(config, host) != platform || LocalArch(config, host) != arch)) &&
      (Truthy(Enabled(config)) && LocalPlatform(config, host) != platform ==> r.Err? && r.error.PlatformMismatch?) &&
      (r.Ok? && r.value != [] ==> r.value == [Remove(buildPath), Copy(config.electronPath, buildPath)])
  {
  }

  /** The environment of the running process. */
  class ProcessEnv {
    var vars: map<string, string>

    constructor (vars: map<string, string>)
      ensures this.vars == vars
    {
      this.vars := vars;
    }
  }

  /** `startLogic`: when enabled, checks the host platform and points
      Electron at the local build through the environment; it never asks
      forge to stop (its result is always `false`). */
  method StartLogic(config: LocalElectronConfig, host: Host, env: ProcessEnv)
    returns (r: Result<bool, LocalElectronError>)
    modifies env
    ensures r.Ok? ==> !r.value
    ensures r.Err? <==> Truthy(Enabled(config)) && config.electronPlatform != "" && config.electronPlatform != host.platform
    ensures r.Err? ==> r.error == PlatformMismatch(host.platform, config.electronPlatform)
    ensures env.vars == if r.Ok? && Truthy(Enabled(config))
                        then old(env.vars)[OverrideDistPathVar := config.electronPath]
                        else old(env.vars)
  {
    if Truthy(Enabled(config)) {
      var failure := CheckPlatform(config, host, host.platform);
      if failure.Some? {
        return Err(failure.value);
      }
      env.vars := env.vars[OverrideDistPathVar := config.electronPath];
    }
    r := Ok(false);
  }
}
