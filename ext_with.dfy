/**
 * The later `Wine` revision whose prefix and architecture are always set,
 * and its seven builders (src/wine/ext/with.rs). `with_prefix` and
 * `with_arch` store their argument as it is; `with_boot` and `with_server`
 * wrap it in `Some`.
 */
module ExtWith {
  import opened Common
  import WineMod
  import opened Lifecycle
  import opened SharedLibraries
  import WithExt

  datatype Wine = Wine(
    binary: Path,
    prefix: Path,
    arch: WineMod.Arch,
    wineboot: Option<WineBoot>,
    wineserver: Option<Path>,
    wineloader: WineMod.Loader,
    wineLibs: SharedLibs,
    gstreamerLibs: SharedLibs)

  function WithPrefix(w: Wine, prefix: Path): (r: Wine)
    ensures r.prefix == prefix && r.(prefix := w.prefix) == w
  {
    w.(prefix := prefix)
  }

  function WithArch(w: Wine, arch: WineMod.Arch): (r: Wine)
    ensures r.arch == arch && r.(arch := w.arch) == w
  {
    w.(arch := arch)
  }

  function WithBoot(w: Wine, boot: WineBoot): (r: Wine)
    ensures r.wineboot == Some(boot) && r.(wineboot := w.wineboot) == w
  {
    w.(wineboot := Some(boot))
  }

  function WithServer(w: Wine, server: Path): (r: Wine)
    ensures r.wineserver == Some(server) && r.(wineserver := w.wineserver) == w
  {
    w.(wineserver := Some(server))
  }

  function WithLoader(w: Wine, loader: WineMod.Loader): (r: Wine)
    ensures r.wineloader == loader && r.(wineloader := w.wineloader) == w
  {
    w.(wineloader := loader)
  }

  function WithWineLibs(w: Wine, libs: SharedLibs): (r: Wine)
    ensures r.wineLibs == libs && r.(wineLibs := w.wineLibs) == w
  {
    w.(wineLibs := libs)
  }

  function WithGstreamerLibs(w: Wine, libs: SharedLibs): (r: Wine)
    ensures r.gstreamerLibs == libs && r.(gstreamerLibs := w.gstreamerLibs) == w
  {
    w.(gstreamerLibs := libs)
  }

  /** Calling a builder twice keeps only the second value. */
  lemma BuildersLastCallWins(w: Wine, p1: Path, p2: Path, a1: WineMod.Arch, a2: WineMod.Arch,
                             b1: WineBoot, b2: WineBoot, l1: WineMod.Loader, l2: WineMod.Loader,
                             s1: SharedLibs, s2: SharedLibs)
    ensures WithPrefix(WithPrefix(w, p1), p2) == WithPrefix(w, p2)
    ensures WithArch(WithArch(w, a1), a2) == WithArch(w, a2)
    ensures WithBoot(WithBoot(w, b1), b2) == WithBoot(w, b2)
    ensures WithServer(WithServer(w, p1), p2) == WithServer(w, p2)
    ensures WithLoader(WithLoader(w, l1), l2) == WithLoader(w, l2)
    ensures WithWineLibs(WithWineLibs(w, s1), s2) == WithWineLibs(w, s2)
    ensures WithGstreamerLibs(WithGstreamerLibs(w, s1), s2) == WithGstreamerLibs(w, s2)
  {
  }

  /**
   * `get_envs` of this revision: the same composer, where the prefix and
   * the architecture are always present.
   */
  function GetEnvs(w: Wine): (env: map<string, string>)
    ensures WineMod.PrefixVar in env && env[WineMod.PrefixVar] == Render(w.prefix)
    ensures WineMod.ArchVar in env && WineMod.ArchFromStr(env[WineMod.ArchVar]) == Some(w.arch)
    ensures env.Keys <= WineMod.WineVars + {WithExt.LibraryVar, WithExt.PluginVar}
    ensures WithExt.LibraryVar in env <==> !w.wineLibs.Unset?
    ensures WithExt.PluginVar in env <==> !w.gstreamerLibs.Unset?
  {
    var base := WineMod.BaseEnvs(w.binary, Some(w.prefix), Some(w.arch), w.wineserver, w.wineloader);
    WithExt.LibraryEnvs(base, w.wineLibs, w.gstreamerLibs)
  }

  /** Changing the prefix changes `WINEPREFIX` and nothing else in the environment. */
  lemma WithPrefixEnvs(w: Wine, p: Path)
    ensures GetEnvs(WithPrefix(w, p)) == GetEnvs(w)[WineMod.PrefixVar := Render(p)]
  {
    var base := WineMod.BaseEnvs(w.binary, Some(w.prefix), Some(w.arch), w.wineserver, w.wineloader);
    var base' := WineMod.BaseEnvs(w.binary, Some(p), Some(w.arch), w.wineserver, w.wineloader);
    var target := base[WineMod.PrefixVar := Render(p)];
    assert base'.Keys == target.Keys;
    assert base' == target;
    WithExt.LibraryEnvsUpdate(base, w.wineLibs, w.gstreamerLibs, WineMod.PrefixVar, Render(p));
  }
}
