/**
 * The winetricks launcher (src/winetricks.rs): a record of optional
 * settings, its builders, and the `bash winetricks <component>` command
 * with the variables winetricks reads.
 */
module Winetricks {
  import opened Common
  import WineMod

  datatype Winetricks = Winetricks(
    winetricks: Path,
    wineserver: Option<Path>,
    wineloader: Option<Path>,
    wineprefix: Option<Path>,
    arch: Option<WineMod.Arch>)

  /** `Winetricks::new`: only the script is set. */
  function New(winetricks: Path): (t: Winetricks)
    ensures t.winetricks == winetricks
    ensures t.wineserver.None? && t.wineloader.None? && t.wineprefix.None? && t.arch.None?
  {
    Winetricks(winetricks, None, None, None, None)
  }

  /**
   * `Winetricks::from_wine`: the wine's resolved server and loader (so both
   * are always set), and its prefix and architecture as they are.
   */
  function FromWine(winetricks: Path, wine: WineMod.Wine, present: Exists): (t: Winetricks)
    ensures t.winetricks == winetricks
    ensures t.wineserver == Some(WineMod.Wineserver(wine, present))
    ensures t.wineloader == Some(WineMod.Wineloader(wine))
    ensures t.wineprefix == wine.prefix && t.arch == wine.arch
  {
    Winetricks(winetricks, Some(WineMod.Wineserver(wine, present)), Some(WineMod.Wineloader(wine)), wine.prefix, wine.arch)
  }

  function WithServer(t: Winetricks, server: Path): (r: Winetricks)
    ensures r.wineserver == Some(server) && r.(wineserver := t.wineserver) == t
  {
    t.(wineserver := Some(server))
  }

  function WithLoader(t: Winetricks, loader: Path): (r: Winetricks)
    ensures r.wineloader == Some(loader) && r.(wineloader := t.wineloader) == t
  {
    t.(wineloader := Some(loader))
  }

  function WithPrefix(t: Winetricks, prefix: Path): (r: Winetricks)
    ensures r.wineprefix == Some(prefix) && r.(wineprefix := t.wineprefix) == t
  {
    t.(wineprefix := Some(prefix))
  }

  function WithArch(t: Winetricks, arch: WineMod.Arch): (r: Winetricks)
    ensures r.arch == Some(arch) && r.(arch := t.arch) == t
  {
    t.(arch := Some(arch))
  }

  const WineVar: string := "WINE"
  const Wine64Var: string := "WINE64"

  /**
   * The variables `install_args_with_env` sets before the caller's: the
   * loader is passed as both `WINELOADER` and `WINE`, and as `WINE64` too
   * for a 64-bit architecture.
   */
  function TricksEnvs(t: Winetricks): (env: map<string, string>)
    ensures env.Keys <= {WineMod.ServerVar, WineMod.LoaderVar, WineVar, Wine64Var, WineMod.PrefixVar, WineMod.ArchVar}
    ensures WineMod.ServerVar in env <==> t.wineserver.Some?
    ensures t.wineserver.Some? ==> env[WineMod.ServerVar] == Render(t.wineserver.value)
    ensures WineMod.LoaderVar in env <==> t.wineloader.Some?
    ensures WineVar in env <==> t.wineloader.Some?
    ensures Wine64Var in env <==> t.wineloader.Some? && t.arch == Some(WineMod.Win64)
    ensures t.wineloader.Some? ==> env[WineMod.LoaderVar] == Render(t.wineloader.value) && env[WineVar] == Render(t.wineloader.value)
    ensures Wine64Var in env ==> env[Wine64Var] == env[WineMod.LoaderVar]
    ensures WineMod.PrefixVar in env <==> t.wineprefix.Some?
    ensures t.wineprefix.Some? ==> env[WineMod.PrefixVar] == Render(t.wineprefix.value)
    ensures WineMod.ArchVar in env <==> t.arch.Some?
    ensures t.arch.Some? ==> WineMod.ArchFromStr(env[WineMod.ArchVar]) == t.arch
  {
    var e1: map<string, string> := if t.wineserver.Some? then map[WineMod.ServerVar := Render(t.wineserver.value)] else map[];
    var e2 := match t.wineloader
      case None => e1
      case Some(l) =>
        var withLoader := e1[WineMod.LoaderVar := Render(l)][WineVar := Render(l)];
        if t.arch == Some(WineMod.Win64) then withLoader[Wine64Var := Render(l)] else withLoader;
    var e3 := if t.wineprefix.Some? then e2[WineMod.PrefixVar := Render(t.wineprefix.value)] else e2;
    if t.arch.Some? then e3[WineMod.ArchVar := WineMod.ArchToStr(t.arch.value)] else e3
  }

  /**
   * `install_args_with_env`: `bash <winetricks> <component> <args>`, the
   * settings' variables, then the caller's pairs, which win.
   */
  method InstallArgsWithEnv(t: Winetricks, component: string, args: seq<string>, envs: seq<(string, string)>)
    returns (command: Command)
    ensures command.program == "bash"
    ensures command.args == [Render(t.winetricks), component] + args
    ensures command.env == ApplyEnvs(TricksEnvs(t), envs)
    ensures forall k :: LastValue(envs, k).Some? ==> k in command.env && command.env[k] == LastValue(envs, k).value
    ensures forall k :: LastValue(envs, k).None? ==> (k in command.env <==> k in TricksEnvs(t))
  {
    var env: map<string, string> := map[];
    if t.wineserver.Some? {
      env := env[WineMod.ServerVar := Render(t.wineserver.value)];
    }
    ghost var e1 := env;
    if t.wineloader.Some? {
      var loader := Render(t.wineloader.value);
      env := env[WineMod.LoaderVar := loader];
      env := env[WineVar := loader];
      if t.arch == Some(WineMod.Win64) {
        env := env[Wine64Var := loader];
      }
    }
    assert t.wineloader.None? ==> env == e1;
    if t.wineprefix.Some? {
      env := env[WineMod.PrefixVar := Render(t.wineprefix.value)];
    }
    if t.arch.Some? {
      env := env[WineMod.ArchVar := WineMod.ArchToStr(t.arch.value)];
    }
    assert env == TricksEnvs(t);
    command := Command("bash", [Render(t.winetricks), component] + args, ApplyEnvs(env, envs));
    ApplyEnvsOverlay(TricksEnvs(t), envs);
  }

  /** `install`: quiet mode, no extra variables. */
  method Install(t: Winetricks, component: string) returns (command: Command)
    ensures command.program == "bash"
    ensures command.args == [Render(t.winetricks), component, "-q"]
    ensures command.env == TricksEnvs(t)
  {
    command := InstallArgsWithEnv(t, component, ["-q"], []);
  }
}
