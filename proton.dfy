/**
 * The Proton bundle (src/wine/bundle/proton/mod.rs): a Proton build folder
 * wrapping a `Wine` of the shared-library revision, an outer "proton
 * prefix" whose `pfx` folder is the wine prefix, and the Steam variables
 * layered over the wine environment.
 */
module Proton {
  import opened Common
  import WineMod
  import opened Lifecycle
  import opened SharedLibraries
  import WithExt

  datatype Proton = Proton(
    path: Path,
    wine: WithExt.Wine,
    protonPrefix: Option<Path>,
    steamClientPath: Option<Path>,
    steamAppId: u32,
    python: Path)

  /** The wine prefix of a Proton prefix. */
  function Pfx(protonPrefix: Path): Path {
    Join(protonPrefix, ["pfx"])
  }

  /**
   * The outer and inner prefixes agree: the wine prefix is `pfx` inside the
   * Proton prefix, and neither is set without the other.
   */
  predicate PrefixesInLockStep(pr: Proton) {
    match pr.protonPrefix
    case None => pr.wine.prefix.None?
    case Some(outer) => pr.wine.prefix == Some(Pfx(outer))
  }

  /**
   * `Proton::new`: the build's own wine64 and wineserver, 64-bit, the
   * current binary as loader, no wineboot, and the Steam defaults.
   */
  function New(path: Path, protonPrefix: Option<Path>): (pr: Proton)
    ensures pr.path == path && pr.protonPrefix == protonPrefix
    ensures protonPrefix.Some? ==> pr.wine.prefix == Some(Pfx(protonPrefix.value))
    ensures protonPrefix.None? ==> pr.wine.prefix.None?
    ensures pr.wine.binary == Join(path, ["files", "bin", "wine64"])
    ensures pr.wine.arch == Some(WineMod.Win64) && pr.wine.wineboot.None?
    ensures pr.wine.wineserver == Some(Join(path, ["files", "bin", "wineserver"]))
    ensures pr.wine.wineloader == WineMod.Current
    ensures pr.steamClientPath.None? && pr.steamAppId == 0 && pr.python == Named("python3")
    ensures PrefixesInLockStep(pr)
  {
    var winePrefix := match protonPrefix
      case Some(p) => Some(Pfx(p))
      case None => None;
    Proton(
      path,
      WithExt.Wine(Join(path, ["files", "bin", "wine64"]), winePrefix, Some(WineMod.Win64), None,
        Some(Join(path, ["files", "bin", "wineserver"])), WineMod.Current, Unset, Unset),
      protonPrefix, None, 0, Named("python3"))
  }

  // ---------------------------------------------------------------------
  // Environment
  // ---------------------------------------------------------------------

  const CompatDataVar: string := "STEAM_COMPAT_DATA_PATH"
  const ClientVar: string := "STEAM_COMPAT_CLIENT_INSTALL_PATH"
  const AppIdVar: string := "SteamAppId"

  /**
   * `Proton::get_envs`: the wine environment, the Proton prefix and the
   * Steam client when set, and the app id (always, in decimal).
   */
  function GetEnvs(pr: Proton): (env: map<string, string>)
    ensures env.Keys == WithExt.GetEnvs(pr.wine).Keys
      + (if pr.protonPrefix.Some? then {CompatDataVar} else {})
      + (if pr.steamClientPath.Some? then {ClientVar} else {})
      + {AppIdVar}
    ensures forall k :: k in WithExt.GetEnvs(pr.wine) ==> env[k] == WithExt.GetEnvs(pr.wine)[k]
    ensures pr.protonPrefix.Some? ==> env[CompatDataVar] == Render(pr.protonPrefix.value)
    ensures pr.steamClientPath.Some? ==> env[ClientVar] == Render(pr.steamClientPath.value)
    ensures env[AppIdVar] == Decimal(pr.steamAppId)
  {
    var e0 := WithExt.GetEnvs(pr.wine);
    assert CompatDataVar !in e0 && ClientVar !in e0 && AppIdVar !in e0;
    SteamEnvs(e0, pr)
  }

  /** The Steam variables Proton adds on top of a wine environment that has none of them. */
  function SteamEnvs(e0: map<string, string>, pr: Proton): (env: map<string, string>)
    requires CompatDataVar !in e0 && ClientVar !in e0 && AppIdVar !in e0
    ensures env.Keys == e0.Keys
      + (if pr.protonPrefix.Some? then {CompatDataVar} else {})
      + (if pr.steamClientPath.Some? then {ClientVar} else {})
      + {AppIdVar}
    ensures forall k :: k in e0 ==> env[k] == e0[k]
    ensures pr.protonPrefix.Some? ==> env[CompatDataVar] == Render(pr.protonPrefix.value)
    ensures pr.steamClientPath.Some? ==> env[ClientVar] == Render(pr.steamClientPath.value)
    ensures env[AppIdVar] == Decimal(pr.steamAppId)
  {
    var e1 := if pr.protonPrefix.Some? then e0[CompatDataVar := Render(pr.protonPrefix.value)] else e0;
    var e2 := if pr.steamClientPath.Some? then e1[ClientVar := Render(pr.steamClientPath.value)] else e1;
    e2[AppIdVar := Decimal(pr.steamAppId)]
  }

  /** `SteamAppId` is all digits and reads back as the app id (0 by default). */
  lemma AppIdReadsBack(pr: Proton)
    ensures forall k :: 0 <= k < |GetEnvs(pr)[AppIdVar]| ==> IsDigit(GetEnvs(pr)[AppIdVar][k])
    ensures ParseDecimal(GetEnvs(pr)[AppIdVar]) == pr.steamAppId
  {
    DecimalRoundTrip(pr.steamAppId);
  }

  // ---------------------------------------------------------------------
  // Builders
  // ---------------------------------------------------------------------

  /**
   * Whether `with_prefix(p)` takes `p` as the Proton prefix: when `p` is
   * missing, already holds `pfx`, or holds no `drive_c`.
   */
  predicate DefaultLayout(p: Path, present: Exists) {
    !present(p) || present(Pfx(p)) || !present(Join(p, ["drive_c"]))
  }

  /**
   * `with_prefix`: either `p` is the Proton prefix and `p/pfx` the wine
   * prefix, or (an existing wine prefix without `pfx`) `p` is the wine
   * prefix and its parent the Proton prefix. Nothing else changes.
   */
  function WithPrefix(pr: Proton, p: Path, present: Exists): (r: Proton)
    ensures DefaultLayout(p, present) ==> r.protonPrefix == Some(p) && r.wine == WithExt.WithPrefix(pr.wine, Pfx(p))
    ensures !DefaultLayout(p, present) ==> r.protonPrefix == Parent(p) && r.wine == WithExt.WithPrefix(pr.wine, p)
    ensures r.(wine := pr.wine, protonPrefix := pr.protonPrefix) == pr
  {
    if DefaultLayout(p, present) then
      pr.(wine := WithExt.WithPrefix(pr.wine, Pfx(p)), protonPrefix := Some(p))
    else
      pr.(protonPrefix := Parent(p), wine := WithExt.WithPrefix(pr.wine, p))
  }

  /**
   * The prefixes stay in lock step after `with_prefix` exactly when the
   * default layout is taken or `p` itself ends in `pfx`.
   */
  lemma WithPrefixLockStep(pr: Proton, p: Path, present: Exists)
    ensures PrefixesInLockStep(WithPrefix(pr, p, present)) <==>
      DefaultLayout(p, present) || (|p.parts| > 0 && p.parts[|p.parts| - 1] == "pfx")
  {
    if !DefaultLayout(p, present) && |p.parts| > 0 {
      var r := WithPrefix(pr, p, present);
      var outer := Parent(p).value;
      assert Join(outer, [p.parts[|p.parts| - 1]]) == p;
      if p.parts[|p.parts| - 1] != "pfx" {
        assert Pfx(outer).parts[|p.parts| - 1] == "pfx";
        assert Pfx(outer) != p;
      }
    }
  }

  /** A reversed layout really is reversed: the wine prefix's parent is the Proton prefix. */
  lemma ReversedLayoutParent(pr: Proton, p: Path, present: Exists)
    requires !DefaultLayout(p, present) && |p.parts| > 0
    ensures WithPrefix(pr, p, present).wine.prefix == Some(p)
    ensures Join(WithPrefix(pr, p, present).protonPrefix.value, [p.parts[|p.parts| - 1]]) == p
  {
  }

  function WithArch(pr: Proton, arch: WineMod.Arch): (r: Proton)
    ensures r.wine == WithExt.WithArch(pr.wine, arch) && r.(wine := pr.wine) == pr
    ensures PrefixesInLockStep(pr) ==> PrefixesInLockStep(r)
  {
    pr.(wine := WithExt.WithArch(pr.wine, arch))
  }

  function WithBoot(pr: Proton, boot: WineBoot): (r: Proton)
    ensures r.wine == WithExt.WithBoot(pr.wine, boot) && r.(wine := pr.wine) == pr
    ensures PrefixesInLockStep(pr) ==> PrefixesInLockStep(r)
  {
    pr.(wine := WithExt.WithBoot(pr.wine, boot))
  }

  function WithServer(pr: Proton, server: Path): (r: Proton)
    ensures r.wine == WithExt.WithServer(pr.wine, server) && r.(wine := pr.wine) == pr
    ensures PrefixesInLockStep(pr) ==> PrefixesInLockStep(r)
  {
    pr.(wine := WithExt.WithServer(pr.wine, server))
  }

  function WithLoader(pr: Proton, loader: WineMod.Loader): (r: Proton)
    ensures r.wine == WithExt.WithLoader(pr.wine, loader) && r.(wine := pr.wine) == pr
    ensures PrefixesInLockStep(pr) ==> PrefixesInLockStep(r)
  {
    pr.(wine := WithExt.WithLoader(pr.wine, loader))
  }

  /**
   * The environment follows `with_prefix` in the default layout:
   * `STEAM_COMPAT_DATA_PATH` is `p` and `WINEPREFIX` is `p/pfx`.
   */
  lemma WithPrefixEnvs(pr: Proton, p: Path, present: Exists)
    requires DefaultLayout(p, present)
    ensures GetEnvs(WithPrefix(pr, p, present))[CompatDataVar] == Render(p)
    ensures GetEnvs(WithPrefix(pr, p, present))[WineMod.PrefixVar] == Render(Pfx(p))
  {
  }

  // ---------------------------------------------------------------------
  // Running
  // ---------------------------------------------------------------------

  /**
   * `run_args_with_env`: `python <path>/proton run <args>`, with
   * `get_envs()` first and the caller's pairs after it, so a caller's pair
   * overrides the bundle's value for its key.
   */
  function RunCommand(pr: Proton, args: seq<string>, envs: seq<(string, string)>): (c: Command)
    ensures c.program == Render(pr.python)
    ensures |c.args| == |args| + 2 && c.args[0] == Render(Join(pr.path, ["proton"])) && c.args[1] == "run"
    ensures c.args[2..] == args
    ensures forall k :: k in c.env <==> k in GetEnvs(pr) || LastValue(envs, k).Some?
    ensures forall k :: LastValue(envs, k).Some? ==> c.env[k] == LastValue(envs, k).value
    ensures forall k :: LastValue(envs, k).None? && k in GetEnvs(pr) ==> c.env[k] == GetEnvs(pr)[k]
  {
    ApplyEnvsOverlay(GetEnvs(pr), envs);
    Command(Render(pr.python), [Render(Join(pr.path, ["proton"])), "run"] + args, ApplyEnvs(GetEnvs(pr), envs))
  }
}
