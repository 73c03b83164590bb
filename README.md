# wincompatlib core, modelled in Dafny

A Dafny model of the deterministic core of `wincompatlib`. This Rust library configures Wine and Proton, composes the commands and environments it spawns them with, and manages Wine prefixes.

The model covers these parts:

- **DXVK version scanner** (`dxvk.dfy`). It chooses which DLL window to read. It searches a byte window for the `DXVK: \0v` marker and decodes the NUL-terminated version after it. It also models the literal rewrite chain applied to the DXVK setup script.
- **Wine records and environment** (`wine_mod.dfy`, `with_ext.dfy`, `ext_with.dfy`, `shared_libraries.dfy`). The source holds three revisions of the `Wine` record, and each is modelled as its own datatype. The model covers:
  - the architecture and loader enums;
  - the resolvers for wineboot, wineserver and the loader;
  - the `with_*` builders;
  - `get_envs`;
  - the `LD_LIBRARY_PATH` and `GST_PLUGIN_PATH` folds.
- **Prefix lifecycle commands** (`lifecycle.dfy`, `boot_ext.dfy`, `ext_boot_ext.dfy`, `ext_boot.dfy`). These cover:
  - the program and arguments chosen by the tagged wineboot location;
  - the one flag each lifecycle operation passes;
  - prefix resolution, including the "No prefix path given" error;
  - the `WINEPREFIX` overlay.
- **Proton bundle** (`proton.dfy`). This covers:
  - the constructor, which derives the inner `pfx` prefix;
  - `with_prefix`, which chooses between two layouts;
  - the Steam variables layered on top of the Wine environment;
  - the `proton run` argument vector.
- **Registry helpers** (`overrides.dfy`, `overrides_ext.dfy`, `fonts.dfy`). These cover:
  - DLL override modes and their comma join;
  - the `reg add` and `reg delete` argument vectors;
  - the "last line of stdout" error text;
  - the Microsoft corefont tables;
  - font registration, the six-candidate `is_installed` check, and the install loops.
- **Winetricks** (`winetricks.dfy`): the builders, and the conditional environment of `install_args_with_env`.

`common.dfy` holds the shared vocabulary. Paths are sequences of components with `join` and `parent`. A `Command` is a record of program, arguments and environment; successive `envs` calls overlay the environment, so later pairs win. It also holds string splitting and joining, decimal rendering, and `trim_end().lines().last()`.

The outside world enters only as parameters:

- the filesystem: an existence predicate `Path -> bool`, a file-read result, or a set of existing files;
- a spawned process: an oracle from an argument vector or a full `Command` to `Result<Output>`;
- directory creation, download and copy: oracles that return an optional error;
- the system temp directory: a path parameter.

For the following functions of the source, which mutate a local `Command`, `HashMap` or `String` step by step, the model is a `method` proved equal to a specification function: `Wine::run`, `install_args_with_env`, the DXVK scan loop, the `prepare_script` reassignment chain, `init_prefix`/`update_prefix`, `install_fonts` and `install_corefonts`. The two `get_envs` are the exception (see "## Left out"). Everything else is a function with the contract it promises, plus lemmas relating the operations.

Behaviour worth noting, as the code has it:

- `get_version` reads `dxgi.dll` first and falls back to `d3d11.dll`.
- It scans one fixed window per file, [1600000, 1700000) for dxgi and [2400000, 2500000) for d3d11.
- A file no longer than the window end yields "not found" without scanning.
- In Proton's `with_prefix`, the reversed layout sets the wine prefix to `p` and the Proton prefix to `parent(p)`. So "wine prefix = Proton prefix/pfx" holds afterwards exactly when the default layout was chosen or `p` ends in `pfx` (`Proton.WithPrefixLockStep`). It is not an unconditional invariant.

## Model

| member | source | states |
|---|---|---|
| Dxvk.GetVersion | src/dxvk.rs:26-42 | dxgi.dll is read first with window [1600000, 1700000). Only when that read fails is d3d11.dll read, with window [2400000, 2500000). When both reads fail the d3d11 read error is returned, not "none". |
| Dxvk.ScanWindow | src/dxvk.rs:44-66 | The imperative scan (outer `for`, inner byte-copying loop, early return) returns exactly `Scan` of the window. |
| Dxvk.Scan | src/dxvk.rs:46-66 | The result is "none" iff no offset `i < len - 14` holds the marker. A found version contains no NUL and fits inside the window. |
| Dxvk.FirstMarkerFrom | src/dxvk.rs:46-48 | The lowest offset at or after `i`, below `len - 14`, holding the marker, or none when no such offset exists. |
| Dxvk.UntilNul | src/dxvk.rs:52-60 | The longest NUL-free prefix of the bytes after the marker: it ends at the first 0 or at the window end. |
| Dxvk.UntilNulUnique | src/dxvk.rs:52-60 | Any NUL-free prefix followed by a 0 (or by the end) is that prefix. |
| Dxvk.Latin1 | src/dxvk.rs:54 | Each byte becomes the char with the same code. |
| Dxvk.FirstMarkerIs | src/dxvk.rs:46-48 | A marker with no marker before it is the one the search finds. |
| Dxvk.ScanFindsFirstVersion | src/dxvk.rs:46-62 | With the first marker at `i` followed by NUL-free bytes `v` and a 0, the result is `v` decoded. |
| Dxvk.ScanCutsAtWindowEnd | src/dxvk.rs:52-62 | A version that runs to the window end without a 0 is cut at the window end. |
| Dxvk.FindFrom | src/dxvk.rs:89-100 | The lowest occurrence of a pattern at or after a position, or none when there is none. |
| Dxvk.PrepareScript | src/dxvk.rs:87-100 | The seven literal rewrites apply in source order, each to every non-overlapping occurrence. No `$wineboot -u` remains afterwards. |
| Dxvk.ApplyRewritesInOrder | src/dxvk.rs:89-100 | Applying the rewrite table equals the explicit chain of seven replacements in source order. |
| Dxvk.RewritesBarred | src/dxvk.rs:89-100 | No replacement text can take part in a `$wineboot -u` occurrence. |
| Dxvk.NoOccurrenceAcrossBarrier | src/dxvk.rs:89-100 | Gluing such a replacement between two `$wineboot -u`-free strings creates no occurrence. |
| Dxvk.ReplaceRemovesBarred | src/dxvk.rs:89-100 | Replacing every `$wineboot -u` removes them all, and later replacements do not reintroduce one. |
| WineMod.ArchFromStr | src/wine/mod.rs:21-27 | Only "win32" and "win64" are recognised; every other string gives none. |
| WineMod.ArchToStr | src/wine/mod.rs:29-34 | `from_str(to_str(a)) == Some(a)` for both architectures. |
| WineMod.FromBinary | src/wine/mod.rs:82-95 | Keeps the binary and leaves prefix, arch, wineboot and wineserver unset, with the default loader. |
| WineMod.DefaultWine | src/wine/mod.rs:75-79 | The default is `from_binary("wine")`. |
| WineMod.InnerBinary | src/wine/mod.rs:122-132 | The sibling of the binary when it exists, otherwise the bare name. |
| WineMod.Wineboot | src/wine/mod.rs:147-149 | The explicit path if set, else the existing sibling, else "wineboot". |
| WineMod.Wineserver | src/wine/mod.rs:164-166 | The explicit path if set, else the existing sibling, else "wineserver". |
| WineMod.ResolvedHelperIsSiblingOrBare | src/wine/mod.rs:122-166 | An unset helper resolves only to its sibling or its bare name. |
| WineMod.DefaultWineHelpersAreBare | src/wine/mod.rs:75-79 | The system wine resolves both helpers to their bare names, whatever exists. |
| WineMod.Wineloader | src/wine/mod.rs:169-175 | "wine" for Default, the binary for Current, and `p` for Custom(p). |
| WineMod.BaseEnvs | src/wine/mod.rs:190-219 | Each of WINEPREFIX, WINEARCH and WINESERVER is present iff its setting is. WINELOADER is present iff the loader is not Default. The values are the settings; WINEARCH reads back as the arch. No other key is set. |
| WineMod.GetEnvs | src/wine/mod.rs:190-219 | Keys are a subset of the four wine variables. WINESERVER comes from the explicit field only, never the sibling lookup. WINELOADER, when present, equals `wineloader()`. |
| WineMod.Run | src/wine/mod.rs:228-259 | The command built by the conditional `env` calls sets exactly the `get_envs` map, runs the binary, and passes the target as its single argument. |
| SharedLibraries.Entries | src/wine/shared_libraries.rs:3-18 | No folders when unset. Standard gives the table entries under the root, in table order. Custom gives its list unchanged. |
| SharedLibraries.RenderAll | src/wine/shared_libraries.rs:46-49 | Each folder is rendered in place, in order. |
| SharedLibraries.GetPaths | src/wine/shared_libraries.rs:32-86 | None exactly when unset, and both defaults are unset. An empty custom list gives "". Otherwise the value starts with ':'. |
| SharedLibraries.ColonListCons | src/wine/shared_libraries.rs:46-49 | The left fold `"{paths}:{path}"` equals ':' + first + fold of the rest. |
| SharedLibraries.ColonListStartsWithColon | src/wine/shared_libraries.rs:46-49 | The fold is empty iff there are no folders, and otherwise starts with ':'. |
| SharedLibraries.SplitFieldThenList | src/wine/shared_libraries.rs:46-49 | Splitting a field followed by the fold at ':' gives the field, then the folders. |
| SharedLibraries.GetPathsSplits | src/wine/shared_libraries.rs:40-86 | Splitting the value at ':' gives "" followed by exactly the configured folders in order, when no folder holds ':'. |
| SharedLibraries.StandardWineFolders | src/wine/shared_libraries.rs:3-12 | The standard Wine value names the eight `WINE_LIBS` folders under the root, in table order. |
| SharedLibraries.StandardGstreamerFolders | src/wine/shared_libraries.rs:14-18 | The standard GStreamer value names lib64, lib and lib32 `gstreamer-1.0`, in that order. |
| WithExt.WithPrefix | src/wine/with_ext.rs:25-30 | Sets prefix to `Some(p)` and changes no other field. |
| WithExt.WithArch | src/wine/with_ext.rs:41-46 | Sets arch to `Some(a)` only. |
| WithExt.WithBoot | src/wine/with_ext.rs:57-62 | Sets wineboot to `Some(b)` only. |
| WithExt.WithServer | src/wine/with_ext.rs:73-78 | Sets wineserver to `Some(s)` only. |
| WithExt.WithLoader | src/wine/with_ext.rs:89-94 | Replaces the loader only. |
| WithExt.WithWineLibs | src/wine/with_ext.rs:98-103 | Replaces the Wine libraries setting only. |
| WithExt.WithGstreamerLibs | src/wine/with_ext.rs:107-112 | Replaces the GStreamer libraries setting only. |
| WithExt.BuildersLastCallWins | src/wine/with_ext.rs:25-112 | For every builder, applying it twice equals applying only the second call. |
| WithExt.LibraryEnvs | src/wine/shared_libraries.rs:40-86 | Adds LD_LIBRARY_PATH iff the Wine libraries are set and GST_PLUGIN_PATH iff the GStreamer ones are, each with its `get_paths` value. Existing entries are kept. |
| WithExt.GetEnvs | src/wine/mod.rs:190-219 | Keys lie within the wine variables plus the two library variables. WINEPREFIX is present iff the prefix is set, with its value. Each library variable is present iff its setting is. |
| WithExt.LibraryEnvsUpdate | src/wine/shared_libraries.rs:40-86 | Setting a wine variable commutes with adding the library variables. |
| WithExt.WithPrefixEnvs | src/wine/with_ext.rs:25-30 | After `with_prefix(p)` the environment is the old one with WINEPREFIX = p. |
| WithExt.WithServerEnvs | src/wine/with_ext.rs:73-78 | After `with_server(s)` the environment is the old one with WINESERVER = s. |
| ExtWith.WithPrefix | src/wine/ext/with.rs:65-70 | Sets the (non-optional) prefix and nothing else. |
| ExtWith.WithArch | src/wine/ext/with.rs:73-78 | Sets the (non-optional) arch directly and nothing else. |
| ExtWith.WithBoot | src/wine/ext/with.rs:81-86 | Wraps the wineboot in `Some` and changes only that field. |
| ExtWith.WithServer | src/wine/ext/with.rs:89-94 | Wraps the wineserver in `Some` and changes only that field. |
| ExtWith.WithLoader | src/wine/ext/with.rs:97-102 | Replaces the loader only. |
| ExtWith.WithWineLibs | src/wine/ext/with.rs:105-110 | Replaces the Wine libraries setting only. |
| ExtWith.WithGstreamerLibs | src/wine/ext/with.rs:113-118 | Replaces the GStreamer libraries setting only. |
| ExtWith.BuildersLastCallWins | src/wine/ext/with.rs:65-118 | For every builder, the last call wins. |
| ExtWith.GetEnvs | src/wine/mod.rs:190-219 | WINEPREFIX is always present and names the prefix. WINEARCH is always present and reads back as the arch. Keys lie within the wine variables plus the two library variables, and each library variable is present iff its setting is. |
| ExtWith.WithPrefixEnvs | src/wine/ext/with.rs:65-70 | After `with_prefix(p)` the environment is the old one with WINEPREFIX = p. |
| Lifecycle.Flag | src/wine/ext/boot_ext.rs:146-210 | Flags: init -i, update -u, stop -f (force) or -k, restart -r, shutdown -s, end-session -e. Each flag parses back to its operation. |
| Lifecycle.ParseFlag | src/wine/ext/boot_ext.rs:146-210 | Exactly the seven lifecycle flags are recognised. |
| Lifecycle.FlagInjective | src/wine/ext/boot_ext.rs:146-210 | Different operations pass different flags. |
| Lifecycle.WinebootCommand | src/wine/ext/boot_ext.rs:109-129 | Unix(p) runs p with no leading argument. Windows(p) runs the wine binary with first argument p. An unresolved wineboot runs the binary with "wineboot". No environment is set. |
| Lifecycle.Invoke | src/wine/ext/boot_ext.rs:145-153 | Appends the flag after the base arguments and applies `get_envs`. For init/update, WINEPREFIX is then set to the resolved prefix, overriding the map; every other key keeps its value from `envs`, or from the base command when `envs` lacks it. |
| BootExt.UpdatePrefix | src/wine/boot_ext.rs:23-32 | Runs `wineboot()` with -u. The environment is `get_envs()` with WINEPREFIX set to the given path. |
| BootExt.StopProcesses | src/wine/boot_ext.rs:43-51 | Runs `wineboot()` with -f iff force, else -k, and `get_envs()` unchanged. |
| BootExt.Restart | src/wine/boot_ext.rs:63-71 | Runs `wineboot()` with exactly -r and `get_envs()` unchanged. |
| BootExt.Shutdown | src/wine/boot_ext.rs:83-91 | Runs `wineboot()` with exactly -s and `get_envs()` unchanged. |
| BootExt.EndSession | src/wine/boot_ext.rs:103-111 | Runs `wineboot()` with exactly -e and `get_envs()` unchanged. |
| ExtBootExt.ResolvePrefix | src/wine/ext/boot_ext.rs:132-136 | An explicit path wins, otherwise the configured prefix is used. When both are absent the result is the InvalidInput "No prefix path given" error. |
| ExtBootExt.PrefixCommand | src/wine/ext/boot_ext.rs:145-148 | The wineboot command plus the flag, with `get_envs()` overlaid by WINEPREFIX = the resolved prefix. |
| ExtBootExt.PrefixOp | src/wine/ext/boot_ext.rs:131-177 | An unresolved prefix fails before any directory creation or spawn. A missing prefix whose creation fails returns that error. Otherwise the result is the spawn of the prefix command. |
| ExtBootExt.SignalCommand | src/wine/ext/boot_ext.rs:179-217 | stop, restart, shutdown and end-session run the wineboot command plus their flag, with `get_envs()` unchanged. |
| ExtBoot.ResolvePrefix | src/wine/ext/boot.rs:131-134 | The explicit path wins, otherwise the configured prefix; there is no error path. |
| ExtBoot.PrefixCommand | src/wine/ext/boot.rs:141-144 | The wineboot command plus the flag. WINEPREFIX is the resolved path, overriding `get_envs()`. |
| ExtBoot.DefaultPrefixCommandKeepsEnvs | src/wine/ext/boot.rs:130-149 | Without an explicit path, the environment is exactly `get_envs()`. |
| ExtBoot.PrefixOp | src/wine/ext/boot.rs:130-170 | Errors come only from creating a missing prefix; otherwise the result is the spawn of the prefix command. |
| ExtBoot.SignalCommand | src/wine/ext/boot.rs:172-210 | The other operations pass their flag with `get_envs()` unchanged. |
| Proton.New | src/wine/bundle/proton/mod.rs:57-86 | `new(path, Some(p))` sets the Proton prefix to p and the wine prefix to p/pfx; with `None` both are unset. The wine binary is files/bin/wine64 and the wineserver files/bin/wineserver, with arch Win64, loader Current and no wineboot. There is no steam client path, the app id is 0 and python is "python3". |
| Proton.GetEnvs | src/wine/bundle/proton/mod.rs:98-112 | Keeps every wine entry. Adds STEAM_COMPAT_DATA_PATH iff the Proton prefix is set, STEAM_COMPAT_CLIENT_INSTALL_PATH iff the client path is set, and always SteamAppId = decimal app id. |
| Proton.SteamEnvs | src/wine/bundle/proton/mod.rs:98-112 | On any environment without the three Steam variables: the old entries are kept unchanged and the Steam variables are added under the same conditions as in `get_envs`. |
| Proton.AppIdReadsBack | src/wine/bundle/proton/mod.rs:109 | SteamAppId is all digits and parses back to the app id. |
| Proton.WithPrefix | src/wine/bundle/proton/mod.rs:121-141 | If p is missing, or p/pfx exists, or p/drive_c is missing, the Proton prefix is p and the wine prefix p/pfx. Otherwise the wine prefix is p and the Proton prefix is `parent(p)`. Nothing else changes. |
| Proton.WithPrefixLockStep | src/wine/bundle/proton/mod.rs:125-140 | Afterwards the wine prefix is the Proton prefix's pfx iff the default layout was chosen or p ends in "pfx". |
| Proton.ReversedLayoutParent | src/wine/bundle/proton/mod.rs:136-139 | In the reversed layout the Proton prefix is the parent of p. |
| Proton.WithPrefixEnvs | src/wine/bundle/proton/mod.rs:98-141 | In the default layout, STEAM_COMPAT_DATA_PATH is p and WINEPREFIX is p/pfx. |
| Proton.WithArch | src/wine/bundle/proton/mod.rs:145-150 | Changes only the inner wine, through its `with_arch`, and keeps the prefixes in lock step. |
| Proton.WithBoot | src/wine/bundle/proton/mod.rs:154-159 | Changes only the inner wine, through its `with_boot`. |
| Proton.WithServer | src/wine/bundle/proton/mod.rs:163-168 | Changes only the inner wine, through its `with_server`. |
| Proton.WithLoader | src/wine/bundle/proton/mod.rs:172-177 | Changes only the inner wine, through its `with_loader`. |
| Proton.RunCommand | src/wine/bundle/proton/mod.rs:242-258 | The argv is `python, path/proton, run`, then the arguments. Caller pairs are applied after `get_envs()`: a named key takes its last pair's value, and other keys keep the Proton value. |
| Common.ApplyEnvsLastWins | src/wine/bundle/proton/mod.rs:248-257 | Successive `envs` pairs overlay the map, and the last pair for a key wins. |
| Common.DecimalRoundTrip | src/wine/bundle/proton/mod.rs:109 | The decimal rendering of a number parses back to it. |
| Common.LastLine | src/wine/ext/overrides.rs:49-50 | `trim_end().lines().last()`: the last line of the trimmed text, non-blank and without a newline, or the whole stdout when trimming leaves nothing. |
| Common.SplitJoin | src/wine/ext/overrides.rs:36-39 | Splitting a join at the separator gives the parts back when no part holds it. |
| Overrides.ModeToStr | src/wine/ext/overrides.rs:15-21 | native, builtin and disabled each parse back to their mode and contain no comma. |
| Overrides.ModeToStrInjective | src/wine/ext/overrides.rs:15-21 | Different modes give different strings. |
| Overrides.ModesString | src/wine/ext/overrides.rs:36-39 | An empty list gives "" and a single mode gives its name. |
| Overrides.ModesRoundTrip | src/wine/ext/overrides.rs:36-39 | A non-empty mode list, joined with ',', splits and parses back to the same list in order. |
| Overrides.AddArgs | src/wine/ext/overrides.rs:42 | `reg add HKEY_CURRENT_USER\Software\Wine\DllOverrides /v dll /d modes /f`, where the data parses back to the modes. |
| Overrides.DeleteArgs | src/wine/ext/overrides.rs:57 | `reg delete <same key> /v dll /f`. |
| Overrides.AddOverride | src/wine/ext/overrides.rs:35-53 | A run error passes through and success is `Ok(())`. On failure the error is "Failed to add dll override: " + the last stdout line. |
| Overrides.DeleteOverride | src/wine/ext/overrides.rs:55-68 | The same three cases, with "Failed to remove dll override: ". |
| Overrides.LastLineSkipsTrailingBlank | src/wine/ext/overrides.rs:49-50 | A stdout ending in a line followed by whitespace reports that line. |
| OverridesExt.AddOverride | src/wine/ext/overrides_ext.rs:15-28 | The same as the modes version with the single mode native, including the Other-kind error text. |
| OverridesExt.DeleteOverride | src/wine/ext/overrides_ext.rs:30-43 | The same argv, outcomes and error text as the modes revision. |
| Winetricks.New | src/winetricks.rs:27-35 | Only the winetricks script is set. |
| Winetricks.FromWine | src/winetricks.rs:38-46 | Copies `Some(wineserver())`, `Some(wineloader())`, the prefix and the arch of the wine. |
| Winetricks.WithServer | src/winetricks.rs:49-55 | Sets the wineserver to `Some(v)` only. |
| Winetricks.WithLoader | src/winetricks.rs:57-63 | Sets the loader to `Some(v)` only. |
| Winetricks.WithPrefix | src/winetricks.rs:65-71 | Sets the prefix to `Some(v)` only. |
| Winetricks.WithArch | src/winetricks.rs:73-78 | Sets the arch to `Some(v)` only. |
| Winetricks.TricksEnvs | src/winetricks.rs:106-126 | WINESERVER, WINEPREFIX and WINEARCH (as `to_str`) are present iff their fields are set. With a loader, WINELOADER and WINE both equal it, and WINE64 is set too iff the arch is Win64. |
| Winetricks.InstallArgsWithEnv | src/winetricks.rs:94-135 | Runs `bash <winetricks> <component> args…`. The conditional `env` calls build the map, caller pairs are applied last, and the last caller pair for a key wins. |
| Winetricks.Install | src/winetricks.rs:81-83 | `install_args_with_env(c, ["-q"], [])`. |
| Fonts.Iterator | src/wine/ext/fonts.rs:106-119 | The ten corefonts, each exactly once. |
| Fonts.ToStr | src/wine/ext/fonts.rs:135-148 | Each code name reads back to its corefont, so `to_str` is injective. |
| Fonts.RegisterFont | src/wine/ext/fonts.rs:207-231 | Registers the name/file pair under the Windows NT key, then under the Windows key. It succeeds iff both runs succeed. The first failing run stops with its error or "Failed to register font: " + the last stdout line. |
| Fonts.IsInstalledBySpelling | src/wine/ext/fonts.rs:233-242 | Installed iff one of f, f.ttf or f.TTF is in drive_c/windows/Fonts or drive_c/windows/fonts. |
| Fonts.InstalledStaysInstalled | src/wine/ext/fonts.rs:233-242 | A font stays installed when more files appear. |
| Fonts.InstalledByMainFile | src/wine/ext/fonts.rs:233-236 | A font whose f.ttf is in Fonts is installed. |
| Fonts.ArchiveName | src/wine/ext/fonts.rs:248 | The archive name plus ".exe" is the URL's last '/'-field. |
| Fonts.MirrorUrlWellFormed | src/wine/ext/fonts.rs:248 | Every mirror URL `…/distfiles/<base>.exe`, whatever base holds, ends its last field with ".exe", so the name's unwraps cannot panic. |
| Fonts.ArchiveNameOfMirror | src/wine/ext/fonts.rs:248 | For a base free of '/', the name read back from its mirror URL is base. |
| Fonts.MainArchive | src/wine/ext/fonts.rs:280-345 | The corefont's first archive installs `to_str(c).ttf` as its first file. |
| Fonts.Archives | src/wine/ext/fonts.rs:280-345 | Arial uses two archives and every other font one. The first file of the first archive is `to_str(c).ttf`. |
| Fonts.Fetch | src/wine/ext/fonts.rs:253-269 | A download failure is returned, then a cabextract run error. A failed cabextract gives "Failed to cabextract font: " + its output. |
| Fonts.CopyAndRegister | src/wine/ext/fonts.rs:271-275 | Files only grow, and only the fonts' destinations are added. On success every destination `Fonts/<new>` exists. |
| Fonts.InstallFonts | src/wine/ext/fonts.rs:247-278 | The copy-and-register loop stops at the first error, and its outcome and files equal the archive's specification. |
| Fonts.InstallArchives | src/wine/ext/fonts.rs:280-348 | Files only grow; on success every font file of every archive exists in Fonts. |
| Fonts.InstallArchivesInTurn | src/wine/ext/fonts.rs:285-296 | The second archive is installed only after the first succeeded. |
| Fonts.InstallCorefont | src/wine/ext/fonts.rs:246-348 | Installs the corefont's archives, in order, stopping at the first error. |
| Fonts.InstallAll | src/wine/ext/fonts.rs:350-356 | On success each listed corefont's `<code name>.ttf` exists in Fonts. |
| Fonts.InstallCorefonts | src/wine/ext/fonts.rs:350-356 | The loop installs corefonts in iterator order and stops at the first error. |
| Fonts.InstalledAfterCorefont | src/wine/ext/fonts.rs:280-345 | A successful `install_corefont(c)` makes `is_installed(to_str(c))` true. |
| Fonts.InstalledAfterAll | src/wine/ext/fonts.rs:350-356 | After a successful run over a list, every listed corefont is installed. |
| Fonts.AllInstalledAfterCorefonts | src/wine/ext/fonts.rs:350-356 | After a successful `install_corefonts`, `is_installed(to_str(c))` holds for every corefont. |

## Left out

- Spawning processes (`spawn`, `output`, `wait_with_output`): a process is an oracle from its argument vector or command to `Result<Output>`. Pipes, stdin/stdout redirection and exit codes beyond success are not modelled.
- `Wine::version` (src/wine/mod.rs:107-115) and the run wrappers in other files: these only spawn a process.
- `install_dxvk`/`uninstall_dxvk` and `Dxvk::install`/`uninstall`: these run the external setup script.
- The three `Regex::replace_all` path substitutions of `prepare_script` and their `{:?}` formatting: foreign library semantics. Reading and writing the script file is left out too; `Dxvk.PrepareScript` starts from the script text.
- The real filesystem: `exists`, `create_dir_all`, `fs::read` and `fs::copy` become a predicate, oracles or a set of existing files. Directory semantics are not modelled.
- Downloading with `minreq`, writing the archive and running `cabextract` are oracles. Their outputs are not modelled; the text of a failed `cabextract` stands for its stderr. Files unpacked into the temp directory are not tracked.
- WithExt.GetEnvs and ExtWith.GetEnvs: the `get_envs` of the later `Wine` revisions is not part of this model. It is taken to be the older composer plus LD_LIBRARY_PATH/GST_PLUGIN_PATH from `get_paths`.
- The `wineboot()` resolver of the later revisions is not part of this model either. The resolved wineboot location is a parameter of the command functions.
- `Wine::new` is the datatype constructor of each revision.
- Proton's `wineboot_command`, `update_prefix`, `stop_processes`, `restart`, `shutdown` and `end_session` delegates (src/wine/bundle/proton/mod.rs:180-216): they pass through to the inner wine's lifecycle operations, which are modelled for each revision.
- Proton's `winepath` and the other run variants: they spawn processes.
- `anyhow` errors are modelled as errors of kind `Other` with the same message text.
- Path rendering is a '/'-join of components; `OsString` encoding is not modelled.
- WineMod.BaseEnvs and Proton.GetEnvs: the conditional `insert` chains of the two `get_envs` (src/wine/mod.rs:190-219, src/wine/bundle/proton/mod.rs:98-112) are modelled as chains of map updates in a function, not as a method updating a local map; the order of the inserts does not matter since each key is inserted at most once.
- Process output: the oracle returns `stdout` as already-decoded text. The source decodes the child's bytes with `String::from_utf8_lossy`, turning invalid UTF-8 into U+FFFD before taking the last line; that byte-level decoding is not modelled, so "the same message text" means the same text after that decoding.
- Lifecycle.WinebootCommand: the three pushes onto a local `Command` in `wineboot_command` are modelled as one function returning the finished command, since every caller is itself a function.
