/**
 * The `Wine` revision with optional prefix and architecture, a tagged
 * wineboot and shared-library settings, and its seven builders
 * (src/wine/with_ext.rs). Each builder replaces exactly one field.
 */
module WithExt {
  import opened Common
  import WineMod
  import opened Lifecycle
  import opened SharedLibraries

  datatype Wine = Wine(
    binary: Path,
    prefix: Option<Path>,
    arch: Option<WineMod.Arch>,
    wineboot: Option<WineBoot>,
    wineserver: Option<Path>,
    wineloader: WineMod.Loader,
    wineLibs: SharedLibs,
    gstreamerLibs: SharedLibs)

  function WithPrefix(w: Wine, prefix: Path): (r: Wine)
    ensures r.prefix == Some(prefix) && r.(prefix := w.prefix) == w
  {
    w.(prefix := Some(prefix))
  }

  function WithArch(w: Wine, arch: WineMod.Arch): (r: Wine)
    ensures r.arch == Some(arch) && r.(arch := w.arch) == w
  {
    w.(arch := Some(arch))
  }

  function WithBoot(w: Wine, boot: WineBoot): (r: Wine)
    ensures r.wineboot == Some(boot) && r.(wineboot := w.wineboot) == w
  {
    w.(wineboot := Some(boot))
  }

  function WithServer(w: Wine, server: Path): (r: Wine)
    ensures r.wineserver == Some(server) && r.(wineserver := w.wineserver) == w
  {
    w.(wineserver := Some(server))
  }

  function WithLoader(w: Wine, loader: WineMod.Loader): (r: Wine)
    ensures r.wineloader == loader && r.(wineloader := w.wineloader) == w
  {
    w.(wineloader := loader)
  }

  function WithWineLibs(w: Wine, libs: SharedLibs): (r: Wine)
    ensures r.wineLibs == libs && r.(wineLibs := w.wineLibs) == w
  {
    w.(wineLibs := libs)
  }

  function WithGstreamerLibs(w: Wine, libs: SharedLibs): (r: Wine)
    ensures r.gstreamerLibs == libs && r.(gstreamerLibs := w.gstreamerLibs) == w
  {
    w.(gstreamerLibs := libs)
  }

  /** Calling a builder twice keeps only the second value. */
  lemma BuildersLastCallWins(w: Wine, p1: Path, p2: Path, a1: WineMod.Arch, a2: WineMod.Arch,
                             b1: WineBoot, b2: WineBoot, l1: WineMod.Loader, l2: WineMod.Loader,
                             s1: SharedLibs, s2: SharedLibs)
    ensures WithPrefix(WithPrefix(w, p1), p2) == WithPrefix(w, p2)
    ensures WithArch(WithArch(w, a1), a2) == WithArch(w, a2)
    ensures WithBoot(WithBoot(w, b1), b2) == WithBoot(w, b2)
    ensures WithServer(WithServer(w, p1), p2) == WithServer(w, p2)
    ensures WithLoader(WithLoader(w, l1), l2) == WithLoader(w, l2)
    ensures WithWineLibs(WithWineLibs(w, s1), s2) == WithWineLibs(w, s2)
    ensures WithGstreamerLibs(WithGstreamerLibs(w, s1), s2) == WithGstreamerLibs(w, s2)
  {
  }

  // ---------------------------------------------------------------------
  // Environment
  // ---------------------------------------------------------------------

  const LibraryVar: string := "LD_LIBRARY_PATH"
  const PluginVar: string := "GST_PLUGIN_PATH"

  /** The two search-path variables, set when their setting is not unset. */
  function LibraryEnvs(env: map<string, string>, wineLibs: SharedLibs, gstreamerLibs: SharedLibs): (r: map<string, string>)
    requires LibraryVar !in env && PluginVar !in env
    ensures r.Keys == env.Keys
      + (if wineLibs.Unset? then {} else {LibraryVar})
      + (if gstreamerLibs.Unset? then {} else {PluginVar})
    ensures forall k :: k in env ==> r[k] == env[k]
    ensures !wineLibs.Unset? ==> r[LibraryVar] == WineGetPaths(wineLibs).value
    ensures !gstreamerLibs.Unset? ==> r[PluginVar] == GstreamerGetPaths(gstreamerLibs).value
  {
    var e := match WineGetPaths(wineLibs)
      case Some(v) => env[LibraryVar := v]
      case None => env;
    match GstreamerGetPaths(gstreamerLibs)
    case Some(v) => e[PluginVar := v]
    case None => e
  }

  /**
   * `get_envs` of this revision: the composer of src/wine/mod.rs over the
   * same optional fields, plus the two search-path variables.
   */
  function GetEnvs(w: Wine): (env: map<string, string>)
    ensures env.Keys <= WineMod.WineVars + {LibraryVar, PluginVar}
    ensures WineMod.PrefixVar in env <==> w.prefix.Some?
    ensures w.prefix.Some? ==> env[WineMod.PrefixVar] == Render(w.prefix.value)
    ensures LibraryVar in env <==> !w.wineLibs.Unset?
    ensures PluginVar in env <==> !w.gstreamerLibs.Unset?
  {
    var base := WineMod.BaseEnvs(w.binary, w.prefix, w.arch, w.wineserver, w.wineloader);
    LibraryEnvs(base, w.wineLibs, w.gstreamerLibs)
  }

  lemma LibraryEnvsUpdate(env: map<string, string>, wineLibs: SharedLibs, gstreamerLibs: SharedLibs, k: string, v: string)
    requires LibraryVar !in env && PluginVar !in env && k != LibraryVar && k != PluginVar
    ensures LibraryEnvs(env[k := v], wineLibs, gstreamerLibs) == LibraryEnvs(env, wineLibs, gstreamerLibs)[k := v]
  {
    var x, y := WineGetPaths(wineLibs), GstreamerGetPaths(gstreamerLibs);
    var e := env[k := v];
    if x.Some? && y.Some? {
      assert e[LibraryVar := x.value][PluginVar := y.value] == env[LibraryVar := x.value][PluginVar := y.value][k := v];
    } else if x.Some? {
      assert e[LibraryVar := x.value] == env[LibraryVar := x.value][k := v];
    } else if y.Some? {
      assert e[PluginVar := y.value] == env[PluginVar := y.value][k := v];
    }
  }

  /** Setting the prefix sets `WINEPREFIX` and keeps every other variable. */
  lemma WithPrefixEnvs(w: Wine, p: Path)
    ensures GetEnvs(WithPrefix(w, p)) == GetEnvs(w)[WineMod.PrefixVar := Render(p)]
  {
    var base := WineMod.BaseEnvs(w.binary, w.prefix, w.arch, w.wineserver, w.wineloader);
    var base' := WineMod.BaseEnvs(w.binary, Some(p), w.arch, w.wineserver, w.wineloader);
    var target := base[WineMod.PrefixVar := Render(p)];
    assert base'.Keys == target.Keys;
    assert base' == target;
    LibraryEnvsUpdate(base, w.wineLibs, w.gstreamerLibs, WineMod.PrefixVar, Render(p));
  }

  /** Setting the server sets `WINESERVER` and keeps every other variable. */
  lemma WithServerEnvs(w: Wine, p: Path)
    ensures GetEnvs(WithServer(w, p)) == GetEnvs(w)[WineMod.ServerVar := Render(p)]
  {
    var base := WineMod.BaseEnvs(w.binary, w.prefix, w.arch, w.wineserver, w.wineloader);
    var base' := WineMod.BaseEnvs(w.binary, w.prefix, w.arch, Some(p), w.wineloader);
    var target := base[WineMod.ServerVar := Render(p)];
    assert base'.Keys == target.Keys;
    assert base' == target;
    LibraryEnvsUpdate(base, w.wineLibs, w.gstreamerLibs, WineMod.ServerVar, Render(p));
  }
}
