/**
 * `LD_LIBRARY_PATH` and `GST_PLUGIN_PATH` values (src/wine/shared_libraries.rs).
 * Both enums of the source have the same three cases and the same fold;
 * they differ only in the table of standard sub-folders.
 */
module SharedLibraries {
  import opened Common

  /**
   * `shared_libraries::Wine` / `shared_libraries::Gstreamer`: no variable
   * (`None` in the source, the default), the standard sub-folders of a
   * build folder, or an explicit list.
   */
  datatype SharedLibs = Unset | Standard(root: Path) | Custom(paths: seq<Path>)

  const Default: SharedLibs := Unset

  /** `WINE_LIBS`, each entry as path components. */
  const WineLibs: seq<seq<string>> := [
    ["lib"],
    ["lib64"],
    ["lib", "wine", "x86_64-unix"],
    ["lib32", "wine", "x86_64-unix"],
    ["lib64", "wine", "x86_64-unix"],
    ["lib", "wine", "i386-unix"],
    ["lib32", "wine", "i386-unix"],
    ["lib64", "wine", "i386-unix"]
  ]

  /** `GSTREAMER_LIBS`. */
  const GstreamerLibs: seq<seq<string>> := [
    ["lib64", "gstreamer-1.0"],
    ["lib", "gstreamer-1.0"],
    ["lib32", "gstreamer-1.0"]
  ]

  /** The folders a setting names, in order. */
  function Entries(l: SharedLibs, table: seq<seq<string>>): (r: seq<Path>)
    ensures l.Unset? ==> r == []
    ensures l.Standard? ==> |r| == |table| && forall i :: 0 <= i < |table| ==> r[i] == Join(l.root, table[i])
    ensures l.Custom? ==> r == l.paths
  {
    match l
    case Unset => []
    case Standard(root) => seq(|table|, i requires 0 <= i < |table| => Join(root, table[i]))
    case Custom(paths) => paths
  }

  /** The fold `format!("{paths}:{}", path)` from the empty string. */
  function ColonList(ps: seq<string>): string
    decreases |ps|
  {
    if ps == [] then "" else ColonList(ps[..|ps| - 1]) + [':'] + ps[|ps| - 1]
  }

  function RenderAll(ps: seq<Path>): (r: seq<string>)
    ensures |r| == |ps| && forall i :: 0 <= i < |ps| ==> r[i] == Render(ps[i])
  {
    seq(|ps|, i requires 0 <= i < |ps| => Render(ps[i]))
  }

  /**
   * `get_paths`: `None` exactly when unset; otherwise every folder preceded
   * by a ':' (so a non-empty list starts with ':' and an empty custom list
   * gives the empty string, not `None`).
   */
  function GetPaths(l: SharedLibs, table: seq<seq<string>>): (r: Option<string>)
    ensures r.None? <==> l.Unset?
    ensures r.Some? && Entries(l, table) == [] ==> r.value == ""
    ensures r.Some? && Entries(l, table) != [] ==> |r.value| > 0 && r.value[0] == ':'
  {
    if l.Unset? then None
    else
      var ps := RenderAll(Entries(l, table));
      ColonListStartsWithColon(ps);
      Some(ColonList(ps))
  }

  function WineGetPaths(l: SharedLibs): Option<string> {
    GetPaths(l, WineLibs)
  }

  function GstreamerGetPaths(l: SharedLibs): Option<string> {
    GetPaths(l, GstreamerLibs)
  }

  /** Folding one more entry: the fold from the front. */
  lemma {:induction false} ColonListCons(a: string, ps: seq<string>)
    ensures ColonList([a] + ps) == [':'] + a + ColonList(ps)
    decreases |ps|
  {
    if ps != [] {
      var q := [a] + ps;
      assert q[..|q| - 1] == [a] + ps[..|ps| - 1];
      assert q[|q| - 1] == ps[|ps| - 1];
      ColonListCons(a, ps[..|ps| - 1]);
    }
  }

  lemma ColonListStartsWithColon(ps: seq<string>)
    ensures ps == [] <==> ColonList(ps) == []
    ensures ps != [] ==> ColonList(ps)[0] == ':'
  {
    if ps != [] {
      ColonListCons(ps[0], ps[1..]);
      assert [ps[0]] + ps[1..] == ps;
    }
  }

  lemma {:induction false} SplitFieldThenList(a: string, ps: seq<string>)
    requires ':' !in a && forall i :: 0 <= i < |ps| ==> ':' !in ps[i]
    ensures Split(a + ColonList(ps), ':') == [a] + ps
    decreases |ps|
  {
    if ps == [] {
      assert a + ColonList(ps) == a;
      SplitNoSeparator(a, ':');
    } else {
      ColonListCons(ps[0], ps[1..]);
      assert [ps[0]] + ps[1..] == ps;
      assert a + ColonList(ps) == a + [':'] + (ps[0] + ColonList(ps[1..]));
      SplitAfterField(a, ':', ps[0] + ColonList(ps[1..]));
      SplitFieldThenList(ps[0], ps[1..]);
    }
  }

  /**
   * Reading a value back: splitting it at ':' gives an empty field followed
   * by exactly the configured folders, in order, provided no folder name
   * holds a ':'.
   */
  lemma GetPathsSplits(l: SharedLibs, table: seq<seq<string>>)
    requires !l.Unset?
    requires forall i :: 0 <= i < |Entries(l, table)| ==> ':' !in Render(Entries(l, table)[i])
    ensures Split(GetPaths(l, table).value, ':') == [""] + RenderAll(Entries(l, table))
  {
    SplitFieldThenList("", RenderAll(Entries(l, table)));
    assert "" + ColonList(RenderAll(Entries(l, table))) == ColonList(RenderAll(Entries(l, table)));
  }

  /** The standard Wine value names all eight folders under the build folder. */
  lemma StandardWineFolders(root: Path)
    requires forall i :: 0 <= i < |WineLibs| ==> ':' !in Render(Join(root, WineLibs[i]))
    ensures |Split(WineGetPaths(Standard(root)).value, ':')| == 9
    ensures forall i :: 0 <= i < 8 ==>
      Split(WineGetPaths(Standard(root)).value, ':')[i + 1] == Render(Join(root, WineLibs[i]))
  {
    GetPathsSplits(Standard(root), WineLibs);
  }

  /** The standard GStreamer value names lib64, lib, lib32 `gstreamer-1.0`, in that order. */
  lemma StandardGstreamerFolders(root: Path)
    requires forall i :: 0 <= i < |GstreamerLibs| ==> ':' !in Render(Join(root, GstreamerLibs[i]))
    ensures Split(GstreamerGetPaths(Standard(root)).value, ':') ==
      ["", Render(Join(root, ["lib64", "gstreamer-1.0"])), Render(Join(root, ["lib", "gstreamer-1.0"])),
       Render(Join(root, ["lib32", "gstreamer-1.0"]))]
  {
    GetPathsSplits(Standard(root), GstreamerLibs);
  }
}
