/**
 * The oldest `Wine` record (src/wine/mod.rs): an architecture enum, the
 * loader mode, the helper-binary resolvers and the environment composer.
 * Here `prefix`, `arch`, `wineboot` and `wineserver` are all optional and
 * `wineboot` is a plain path.
 */
module WineMod {
  import opened Common

  datatype Arch = Win32 | Win64

  /** `WineArch::from_str`: only the two exact names are recognised. */
  function ArchFromStr(s: string): (r: Option<Arch>)
    ensures r == Some(Win32) <==> s == "win32"
    ensures r == Some(Win64) <==> s == "win64"
    ensures r.None? <==> s != "win32" && s != "win64"
  {
    if s == "win32" then Some(Win32)
    else if s == "win64" then Some(Win64)
    else None
  }

  /** `WineArch::to_str`, the value of `WINEARCH`. */
  function ArchToStr(a: Arch): (r: string)
    ensures ArchFromStr(r) == Some(a)
  {
    match a
    case Win32 => "win32"
    case Win64 => "win64"
  }

  /** `WineLoader`: which `WINELOADER` to set, if any. `Default` is the default. */
  datatype Loader = Current | Default | Custom(path: Path)

  datatype Wine = Wine(
    binary: Path,
    prefix: Option<Path>,
    arch: Option<Arch>,
    wineboot: Option<Path>,
    wineserver: Option<Path>,
    wineloader: Loader)

  /** `Wine::from_binary`: `Wine::new(binary, None, None, None, None, WineLoader::default())`. */
  function FromBinary(binary: Path): (w: Wine)
    ensures w.binary == binary && w.wineloader == Default
    ensures w.prefix.None? && w.arch.None? && w.wineboot.None? && w.wineserver.None?
  {
    Wine(binary, None, None, None, None, Default)
  }

  /** `Wine::default`: the system-wide "wine". */
  function DefaultWine(): (w: Wine)
    ensures w == FromBinary(Named("wine"))
  {
    FromBinary(Named("wine"))
  }

  // ---------------------------------------------------------------------
  // Helper binaries
  // ---------------------------------------------------------------------

  /** `<parent of the binary>/name`, when the binary has a parent. */
  function Sibling(w: Wine, name: string): Option<Path> {
    match Parent(w.binary)
    case None => None
    case Some(dir) => Some(Join(dir, [name]))
  }

  /** `get_inner_binary`: the sibling if it exists, else the bare name. */
  function InnerBinary(w: Wine, name: string, present: Exists): (r: Path)
    ensures Sibling(w, name).Some? && present(Sibling(w, name).value) ==> r == Sibling(w, name).value
    ensures Sibling(w, name).None? || !present(Sibling(w, name).value) ==> r == Named(name)
  {
    match Sibling(w, name)
    case Some(p) => if present(p) then p else Named(name)
    case None => Named(name)
  }

  /** `Wine::wineboot`: the explicit path, else the sibling, else "wineboot". */
  function Wineboot(w: Wine, present: Exists): (r: Path)
    ensures w.wineboot.Some? ==> r == w.wineboot.value
    ensures w.wineboot.None? ==> r == InnerBinary(w, "wineboot", present)
    ensures w.wineboot.None? && Parent(w.binary).Some? && present(Join(Parent(w.binary).value, ["wineboot"])) ==>
      r == Join(Parent(w.binary).value, ["wineboot"])
  {
    match w.wineboot
    case Some(p) => p
    case None => InnerBinary(w, "wineboot", present)
  }

  /** `Wine::wineserver`: the explicit path, else the sibling, else "wineserver". */
  function Wineserver(w: Wine, present: Exists): (r: Path)
    ensures w.wineserver.Some? ==> r == w.wineserver.value
    ensures w.wineserver.None? ==> r == InnerBinary(w, "wineserver", present)
    ensures w.wineserver.None? && Parent(w.binary).Some? && present(Join(Parent(w.binary).value, ["wineserver"])) ==>
      r == Join(Parent(w.binary).value, ["wineserver"])
  {
    match w.wineserver
    case Some(p) => p
    case None => InnerBinary(w, "wineserver", present)
  }

  /** The resolvers never look further than the binary's own directory. */
  lemma ResolvedHelperIsSiblingOrBare(w: Wine, present: Exists)
    ensures w.wineboot.None? ==>
      Wineboot(w, present) == Named("wineboot") || Some(Wineboot(w, present)) == Sibling(w, "wineboot")
    ensures w.wineserver.None? ==>
      Wineserver(w, present) == Named("wineserver") || Some(Wineserver(w, present)) == Sibling(w, "wineserver")
  {
  }

  /**
   * The system-wide wine ("wine", whose parent is the empty path) resolves
   * both helpers to their bare names, whatever exists.
   */
  lemma DefaultWineHelpersAreBare(present: Exists)
    ensures Wineboot(DefaultWine(), present) == Named("wineboot")
    ensures Wineserver(DefaultWine(), present) == Named("wineserver")
  {
    assert Parent(Named("wine")) == Some(Path(false, []));
    assert Join(Path(false, []), ["wineboot"]) == Named("wineboot");
    assert Join(Path(false, []), ["wineserver"]) == Named("wineserver");
  }

  /** `Wine::wineloader`: the program `WINELOADER` names. */
  function Wineloader(w: Wine): (r: Path)
    ensures w.wineloader.Default? ==> r == Named("wine")
    ensures w.wineloader.Current? ==> r == w.binary
    ensures w.wineloader.Custom? ==> r == w.wineloader.path
  {
    match w.wineloader
    case Default => Named("wine")
    case Current => w.binary
    case Custom(p) => p
  }

  // ---------------------------------------------------------------------
  // Environment
  // ---------------------------------------------------------------------

  const PrefixVar: string := "WINEPREFIX"
  const ArchVar: string := "WINEARCH"
  const ServerVar: string := "WINESERVER"
  const LoaderVar: string := "WINELOADER"

  /** The only variables the composer ever sets. */
  const WineVars: set<string> := {PrefixVar, ArchVar, ServerVar, LoaderVar}

  /**
   * The composer shared by the revisions of `get_envs`: one conditional
   * insert per configured setting.
   */
  function BaseEnvs(binary: Path, prefix: Option<Path>, arch: Option<Arch>, server: Option<Path>, loader: Loader): (env: map<string, string>)
    ensures env.Keys <= WineVars
    ensures PrefixVar in env <==> prefix.Some?
    ensures prefix.Some? ==> env[PrefixVar] == Render(prefix.value)
    ensures ArchVar in env <==> arch.Some?
    ensures arch.Some? ==> ArchFromStr(env[ArchVar]) == arch
    ensures ServerVar in env <==> server.Some?
    ensures server.Some? ==> env[ServerVar] == Render(server.value)
    ensures LoaderVar in env <==> !loader.Default?
    ensures loader.Current? ==> env[LoaderVar] == Render(binary)
    ensures loader.Custom? ==> env[LoaderVar] == Render(loader.path)
  {
    var e1: map<string, string> := if prefix.Some? then map[PrefixVar := Render(prefix.value)] else map[];
    var e2 := if arch.Some? then e1[ArchVar := ArchToStr(arch.value)] else e1;
    var e3 := if server.Some? then e2[ServerVar := Render(server.value)] else e2;
    match loader
    case Default => e3
    case Current => e3[LoaderVar := Render(binary)]
    case Custom(p) => e3[LoaderVar := Render(p)]
  }

  /**
   * `Wine::get_envs`. `WINESERVER` comes from the explicit field only, never
   * from the sibling lookup; `WINELOADER` is what `wineloader()` names.
   */
  function GetEnvs(w: Wine): (env: map<string, string>)
    ensures env.Keys <= WineVars
    ensures PrefixVar in env <==> w.prefix.Some?
    ensures ArchVar in env <==> w.arch.Some?
    ensures ServerVar in env <==> w.wineserver.Some?
    ensures w.wineserver.Some? ==> env[ServerVar] == Render(w.wineserver.value)
    ensures LoaderVar in env <==> !w.wineloader.Default?
    ensures LoaderVar in env ==> env[LoaderVar] == Render(Wineloader(w))
  {
    BaseEnvs(w.binary, w.prefix, w.arch, w.wineserver, w.wineloader)
  }

  /**
   * The command `Wine::run` spawns: the binary with the target as its one
   * argument and one `env` call per configured setting. It sets exactly the
   * variables `get_envs` reports.
   */
  method Run(w: Wine, target: Path) returns (command: Command)
    ensures command.program == Render(w.binary) && command.args == [Render(target)]
    ensures command.env == GetEnvs(w)
  {
    command := Command(Render(w.binary), [Render(target)], map[]);
    if w.prefix.Some? {
      command := command.(env := command.env[PrefixVar := Render(w.prefix.value)]);
    }
    if w.arch.Some? {
      command := command.(env := command.env[ArchVar := ArchToStr(w.arch.value)]);
    }
    if w.wineserver.Some? {
      command := command.(env := command.env[ServerVar := Render(w.wineserver.value)]);
    }
    match w.wineloader {
      case Default =>
      case Current => command := command.(env := command.env[LoaderVar := Render(w.binary)]);
      case Custom(p) => command := command.(env := command.env[LoaderVar := Render(p)]);
    }
  }
}
