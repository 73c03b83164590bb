/**
 * The Microsoft core fonts extension (src/wine/ext/fonts.rs): the ten
 * corefonts and their code names, registering a font under the two
 * `Fonts` registry keys, the check whether a font file is present in the
 * prefix, and installing a font by fetching its archive, copying each
 * font file into `drive_c/windows/Fonts` and registering it.
 *
 * The filesystem is the set of files that exist; copying a font adds the
 * destination to it. Downloading and unpacking an archive, copying, and
 * running `reg` through wine are oracles that say whether each step
 * succeeds.
 */
module Fonts {
  import opened Common
  import ExtWith
  import Overrides

  datatype Corefont =
    Andale | Arial | ComicSans | Courier | Georgia | Impact | Times | Trebuchet | Verdana | Webdings

  const Corefonts: seq<Corefont> :=
    [Andale, Arial, ComicSans, Courier, Georgia, Impact, Times, Trebuchet, Verdana, Webdings]

  lemma CorefontsListed()
    ensures forall c :: c in Corefonts
  {
    forall c ensures c in Corefonts {
      match c
      case Andale => assert Corefonts[0] == c;
      case Arial => assert Corefonts[1] == c;
      case ComicSans => assert Corefonts[2] == c;
      case Courier => assert Corefonts[3] == c;
      case Georgia => assert Corefonts[4] == c;
      case Impact => assert Corefonts[5] == c;
      case Times => assert Corefonts[6] == c;
      case Trebuchet => assert Corefonts[7] == c;
      case Verdana => assert Corefonts[8] == c;
      case Webdings => assert Corefonts[9] == c;
    }
  }

  /** `Corefont::iterator`: every corefont exactly once, in declaration order. */
  function Iterator(): (r: seq<Corefont>)
    ensures |r| == 10
    ensures forall c :: c in r
    ensures forall i, j :: 0 <= i < j < |r| ==> r[i] != r[j]
  {
    CorefontsListed();
    Corefonts
  }

  /** `Corefont::to_str`: the main `.ttf` file's name without its extension. */
  function ToStr(c: Corefont): (r: string)
    ensures FromCodeName(r) == Some(c)
    ensures r != [] && '/' !in r
  {
    match c
    case Andale => "andalemo"
    case Arial => "arial"
    case ComicSans => "comic"
    case Courier => "cour"
    case Georgia => "georgia"
    case Impact => "impact"
    case Times => "times"
    case Trebuchet => "trebuc"
    case Verdana => "verdana"
    case Webdings => "webdings"
  }

  /** Reads a code name back; the inverse that shows code names are distinct. */
  function FromCodeName(s: string): Option<Corefont> {
    if s == "andalemo" then Some(Andale)
    else if s == "arial" then Some(Arial)
    else if s == "comic" then Some(ComicSans)
    else if s == "cour" then Some(Courier)
    else if s == "georgia" then Some(Georgia)
    else if s == "impact" then Some(Impact)
    else if s == "times" then Some(Times)
    else if s == "trebuc" then Some(Trebuchet)
    else if s == "verdana" then Some(Verdana)
    else if s == "webdings" then Some(Webdings)
    else None
  }

  // ---------------------------------------------------------------------
  // Registering a font
  // ---------------------------------------------------------------------

  const NtFontsKey: string := "HKEY_LOCAL_MACHINE\\Software\\Microsoft\\Windows NT\\CurrentVersion\\Fonts"
  const WindowsFontsKey: string := "HKEY_LOCAL_MACHINE\\Software\\Microsoft\\Windows\\CurrentVersion\\Fonts"
  const RegisterFailure: string := "Failed to register font: "

  /** `reg add <key> /v <name> /d <file> /f`. */
  function RegisterArgs(key: string, file: string, name: string): seq<string> {
    ["reg", "add", key, "/v", name, "/d", file, "/f"]
  }

  /**
   * `register_font`: the font is added under the Windows NT key and then
   * under the Windows key; the first run that cannot be started or that
   * fails stops the registration with its error.
   */
  function RegisterFont(file: string, name: string, run: Runner): (r: Result<()>)
    ensures var nt := run(RegisterArgs(NtFontsKey, file, name));
      var win := run(RegisterArgs(WindowsFontsKey, file, name));
      && (r.Ok? <==> nt.Ok? && nt.value.success && win.Ok? && win.value.success)
      && (nt.Err? ==> r == Err(nt.error))
      && (nt.Ok? && !nt.value.success ==> r == Err(Error(Other, RegisterFailure + LastLine(nt.value.stdout))))
      && (nt.Ok? && nt.value.success && win.Err? ==> r == Err(win.error))
      && (nt.Ok? && nt.value.success && win.Ok? && !win.value.success ==>
            r == Err(Error(Other, RegisterFailure + LastLine(win.value.stdout))))
  {
    match Overrides.RegOutcome(run(RegisterArgs(NtFontsKey, file, name)), RegisterFailure)
    case Err(e) => Err(e)
    case Ok(_) => Overrides.RegOutcome(run(RegisterArgs(WindowsFontsKey, file, name)), RegisterFailure)
  }

  // ---------------------------------------------------------------------
  // Whether a font is installed
  // ---------------------------------------------------------------------

  /** Where fonts are copied to: `<prefix>/drive_c/windows/Fonts`. */
  function FontsDir(prefix: Path): Path {
    Join(prefix, ["drive_c", "windows", "Fonts"])
  }

  /** The lower-case spelling some prefixes use. */
  function LowerFontsDir(prefix: Path): Path {
    Join(prefix, ["drive_c", "windows", "fonts"])
  }

  /** The three names a font may have: as given, with `.ttf`, with `.TTF`. */
  function FileNames(font: string): seq<string> {
    [font, font + ".ttf", font + ".TTF"]
  }

  /** The six files `is_installed` looks for, in its order. */
  function Candidates(prefix: Path, font: string): seq<Path> {
    var names := FileNames(font);
    [Join(FontsDir(prefix), [names[0]]), Join(FontsDir(prefix), [names[1]]), Join(FontsDir(prefix), [names[2]]),
     Join(LowerFontsDir(prefix), [names[0]]), Join(LowerFontsDir(prefix), [names[1]]),
     Join(LowerFontsDir(prefix), [names[2]])]
  }

  predicate InEitherFolder(prefix: Path, name: string, files: set<Path>) {
    Join(FontsDir(prefix), [name]) in files || Join(LowerFontsDir(prefix), [name]) in files
  }

  /**
   * `is_installed`: some spelling of the font file is in one of the two
   * font folders of the prefix.
   */
  function IsInstalled(w: ExtWith.Wine, font: string, files: set<Path>): bool {
    var c := Candidates(w.prefix, font);
    c[0] in files || c[1] in files || c[2] in files || c[3] in files || c[4] in files || c[5] in files
  }

  /** The six checks amount to: some spelling of the font is in one of the two folders. */
  lemma IsInstalledBySpelling(w: ExtWith.Wine, font: string, files: set<Path>)
    ensures IsInstalled(w, font, files) <==> exists n :: n in FileNames(font) && InEitherFolder(w.prefix, n, files)
  {
    var names := FileNames(font);
    var c := Candidates(w.prefix, font);
    if IsInstalled(w, font, files) {
      if c[0] in files || c[3] in files {
        assert names[0] in names && InEitherFolder(w.prefix, names[0], files);
      } else if c[1] in files || c[4] in files {
        assert names[1] in names && InEitherFolder(w.prefix, names[1], files);
      } else {
        assert names[2] in names && InEitherFolder(w.prefix, names[2], files);
      }
    } else {
      forall n | n in names ensures !InEitherFolder(w.prefix, n, files) {
        assert n == names[0] || n == names[1] || n == names[2];
      }
    }
  }

  /** A file that exists keeps the font installed when more files appear. */
  lemma InstalledStaysInstalled(w: ExtWith.Wine, font: string, files: set<Path>, more: set<Path>)
    requires files <= more
    ensures IsInstalled(w, font, files) ==> IsInstalled(w, font, more)
  {
    var c := Candidates(w.prefix, font);
    if IsInstalled(w, font, files) {
      assert c[0] in more || c[1] in more || c[2] in more || c[3] in more || c[4] in more || c[5] in more;
    }
  }

  /** A font whose `<name>.ttf` is in the `Fonts` folder is installed. */
  lemma InstalledByMainFile(w: ExtWith.Wine, font: string, files: set<Path>)
    requires Join(FontsDir(w.prefix), [font + ".ttf"]) in files
    ensures IsInstalled(w, font, files)
  {
    assert Candidates(w.prefix, font)[1] in files;
  }

  // ---------------------------------------------------------------------
  // Archives
  // ---------------------------------------------------------------------

  /** One font of an archive: its file in the archive, its file in the prefix, its registry name. */
  datatype FontFile = FontFile(original: string, file: string, name: string)

  /** An archive on the mirror, by its name, with the fonts taken from it. */
  datatype Archive = Archive(base: string, fonts: seq<FontFile>)

  const Mirror: string := "https://mirrors.kernel.org/gentoo/distfiles"

  function MirrorUrl(base: string): string {
    Mirror + "/" + base + ".exe"
  }

  /** `url.split('/').last()`. */
  function LastField(url: string): string {
    var fields := Split(url, '/');
    fields[|fields| - 1]
  }

  predicate HasExeSuffix(s: string) {
    |s| >= 4 && s[|s| - 4..] == ".exe"
  }

  /** The source unwraps `strip_suffix(".exe")`, so a URL without it panics. */
  predicate WellFormedUrl(url: string) {
    HasExeSuffix(LastField(url))
  }

  /** The archive's name: the URL's last field without `.exe`. */
  function ArchiveName(url: string): (r: string)
    requires WellFormedUrl(url)
    ensures r + ".exe" == LastField(url)
  {
    var f := LastField(url);
    f[..|f| - 4]
  }

  /** Every URL on the mirror ends in `.exe`, whatever the base name holds. */
  lemma MirrorUrlWellFormed(base: string)
    ensures WellFormedUrl(MirrorUrl(base))
  {
    var url := MirrorUrl(base);
    assert url == (Mirror + "/" + base) + ".exe";
    SplitLastSuffix(Mirror + "/" + base, '/', ".exe");
    var f := LastField(url);
    assert f[|f| - 4..] == ".exe";
  }

  /** Naming an archive on the mirror and reading its name back agree. */
  lemma ArchiveNameOfMirror(base: string)
    requires '/' !in base
    ensures WellFormedUrl(MirrorUrl(base))
    ensures ArchiveName(MirrorUrl(base)) == base
  {
    var y := base + ".exe";
    assert '/' !in y by {
      forall k | 0 <= k < |y| ensures y[k] != '/' {
        if k < |base| { assert y[k] == base[k]; }
      }
    }
    assert MirrorUrl(base) == Mirror + ['/'] + y;
    SplitLastField(Mirror, '/', y);
    assert LastField(MirrorUrl(base)) == y;
    assert y[|y| - 4..] == ".exe";
    assert y[..|y| - 4] == base;
  }

  /**
   * The first (for all but Arial, the only) archive of a corefont, with the
   * fonts taken from it; its first font is the corefont's main file,
   * `<code name>.ttf`.
   */
  function MainArchive(c: Corefont): (a: Archive)
    ensures |a.fonts| > 0 && a.fonts[0].file == ToStr(c) + ".ttf"
  {
    match c
    case Andale => Archive("andale32", [
        FontFile("AndaleMo.TTF", "andalemo.ttf", "Andale Mono")])
    case Arial => Archive("arial32", [
        FontFile("Arial.TTF", "arial.ttf", "Arial"),
        FontFile("Arialbd.TTF", "arialbd.ttf", "Arial Bold"),
        FontFile("Ariali.TTF", "ariali.ttf", "Arial Italic"),
        FontFile("Arialbi.TTF", "arialbi.ttf", "Arial Bold Italic")])
    case ComicSans => Archive("comic32", [
        FontFile("Comic.TTF", "comic.ttf", "Comic Sans MS"),
        FontFile("Comicbd.TTF", "comicbd.ttf", "Comic Sans MS Bold")])
    case Courier => Archive("courie32", [
        FontFile("cour.ttf", "cour.ttf", "Courier New"),
        FontFile("courbd.ttf", "courbd.ttf", "Courier New Bold"),
        FontFile("couri.ttf", "couri.ttf", "Courier New Italic"),
        FontFile("courbi.ttf", "courbi.ttf", "Courier New Bold Italic")])
    case Georgia => Archive("georgi32", [
        FontFile("Georgia.TTF", "georgia.ttf", "Georgia"),
        FontFile("Georgiab.TTF", "georgiab.ttf", "Georgia Bold"),
        FontFile("Georgiai.TTF", "georgiai.ttf", "Georgia Italic"),
        FontFile("Georgiaz.TTF", "georgiaz.ttf", "Georgia Bold Italic")])
    case Impact => Archive("impact32", [
        FontFile("Impact.TTF", "impact.ttf", "Impact")])
    case Times => Archive("times32", [
        FontFile("Times.TTF", "times.ttf", "Times New Roman"),
        FontFile("Timesbd.TTF", "timesbd.ttf", "Times New Roman Bold"),
        FontFile("Timesi.TTF", "timesi.ttf", "Times New Roman Italic"),
        FontFile("Timesbi.TTF", "timesbi.ttf", "Times New Roman Bold Italic")])
    case Trebuchet => Archive("trebuc32", [
        FontFile("trebuc.ttf", "trebuc.ttf", "Trebuchet MS"),
        FontFile("Trebucbd.ttf", "trebucbd.ttf", "Trebuchet MS Bold"),
        FontFile("trebucit.ttf", "trebucit.ttf", "Trebuchet MS Italic"),
        FontFile("trebucbi.ttf", "trebucbi.ttf", "Trebuchet MS Bold Italic")])
    case Verdana => Archive("verdan32", [
        FontFile("Verdana.TTF", "verdana.ttf", "Verdana"),
        FontFile("Verdanab.TTF", "verdanab.ttf", "Verdana Bold"),
        FontFile("Verdanai.TTF", "verdanai.ttf", "Verdana Italic"),
        FontFile("Verdanaz.TTF", "verdanaz.ttf", "Verdana Bold Italic")])
    case Webdings => Archive("webdin32", [
        FontFile("Webdings.TTF", "webdings.ttf", "Webdings")])
  }

  /** Arial's second archive, installed after the first. */
  const ArialBlack: Archive := Archive("arialb32", [FontFile("AriBlk.TTF", "ariblk.ttf", "Arial Black")])

  /** The archives a corefont comes from: Arial needs two, every other corefont one. */
  function Archives(c: Corefont): (r: seq<Archive>)
    ensures |r| == (if c == Arial then 2 else 1)
    ensures |r[0].fonts| > 0 && r[0].fonts[0].file == ToStr(c) + ".ttf"
  {
    [MainArchive(c)] + (if c == Arial then [ArialBlack] else [])
  }


  // ---------------------------------------------------------------------
  // Installing
  // ---------------------------------------------------------------------

  /** Downloading a URL and writing it to a path: the error, if either fails. */
  type Download = (string, Path) -> Option<Error>

  /** `std::fs::copy(from, to)`: the error, if it fails. */
  type Copy = (Path, Path) -> Option<Error>

  const CabextractFailure: string := "Failed to cabextract font: "

  /** `cabextract -d <dir> <archive>`. */
  function CabextractArgs(dir: Path, archive: Path): seq<string> {
    ["cabextract", "-d", Render(dir), Render(archive)]
  }

  /** The outcome of fetching and unpacking an archive into `temp`. */
  function Fetch(url: string, archive: Path, temp: Path, download: Download, extract: Runner): (r: Option<Error>)
    ensures download(url, archive).Some? ==> r == download(url, archive)
    ensures download(url, archive).None? ==>
      var x := extract(CabextractArgs(temp, archive));
      && (x.Err? ==> r == Some(x.error))
      && (x.Ok? ==> (r.None? <==> x.value.success))
      && (x.Ok? && !x.value.success ==> r == Some(Error(Other, CabextractFailure + x.value.stdout)))
  {
    match download(url, archive)
    case Some(e) => Some(e)
    case None =>
      match extract(CabextractArgs(temp, archive))
      case Err(e) => Some(e)
      case Ok(out) => if out.success then None else Some(Error(Other, CabextractFailure + out.stdout))
  }

  /**
   * Copying each font from `temp` into `dir` and registering it, in order,
   * stopping at the first failure: the outcome and the files that exist
   * afterwards. A font whose copy succeeded exists even when registering it
   * then fails; nothing outside the fonts' destinations is created.
   */
  function CopyAndRegister(fonts: seq<FontFile>, temp: Path, dir: Path, files: set<Path>,
                           copy: Copy, run: Runner): (res: (Result<()>, set<Path>))
    ensures files <= res.1
    ensures forall p :: p in res.1 ==> p in files || exists i :: 0 <= i < |fonts| && p == Join(dir, [fonts[i].file])
    ensures res.0.Ok? ==> forall i :: 0 <= i < |fonts| ==> Join(dir, [fonts[i].file]) in res.1
    decreases |fonts|
  {
    if fonts == [] then (Ok(()), files)
    else
      var f := fonts[0];
      var dst := Join(dir, [f.file]);
      match copy(Join(temp, [f.original]), dst)
      case Some(e) => (Err(e), files)
      case None =>
        match RegisterFont(f.file, f.name, run)
        case Err(e) => (Err(e), files + {dst})
        case Ok(_) =>
          var rest := CopyAndRegister(fonts[1..], temp, dir, files + {dst}, copy, run);
          assert forall i :: 1 <= i < |fonts| ==> fonts[i] == fonts[1..][i - 1];
          rest
  }

  /**
   * `install_fonts` on one archive: the archive goes to
   * `<temp dir>/<name>.exe`, is unpacked into `<temp dir>/<name>`, and its
   * fonts are copied into the prefix's `Fonts` folder and registered.
   */
  function InstallArchive(w: ExtWith.Wine, a: Archive, tempDir: Path, files: set<Path>,
                          download: Download, extract: Runner, copy: Copy, run: Runner): (res: (Result<()>, set<Path>))
  {
    MirrorUrlWellFormed(a.base);
    var url := MirrorUrl(a.base);
    var name := ArchiveName(url);
    match Fetch(url, Join(tempDir, [name + ".exe"]), Join(tempDir, [name]), download, extract)
    case Some(e) => (Err(e), files)
    case None => CopyAndRegister(a.fonts, Join(tempDir, [name]), FontsDir(w.prefix), files, copy, run)
  }

  /** The archives of one corefont in turn, stopping at the first failure. */
  function InstallArchives(w: ExtWith.Wine, archives: seq<Archive>, tempDir: Path, files: set<Path>,
                           download: Download, extract: Runner, copy: Copy, run: Runner): (res: (Result<()>, set<Path>))
    ensures files <= res.1
    ensures res.0.Ok? ==> forall i, j :: 0 <= i < |archives| && 0 <= j < |archives[i].fonts| ==>
      Join(FontsDir(w.prefix), [archives[i].fonts[j].file]) in res.1
    decreases |archives|
  {
    if archives == [] then (Ok(()), files)
    else
      var first := InstallArchive(w, archives[0], tempDir, files, download, extract, copy, run);
      if first.0.Err? then first
      else
        var rest := InstallArchives(w, archives[1..], tempDir, first.1, download, extract, copy, run);
        assert forall i :: 1 <= i < |archives| ==> archives[i] == archives[1..][i - 1];
        rest
  }

  /** `install_corefonts` over a list of corefonts, stopping at the first failure. */
  function InstallAll(w: ExtWith.Wine, fonts: seq<Corefont>, tempDir: Path, files: set<Path>,
                      download: Download, extract: Runner, copy: Copy, run: Runner): (res: (Result<()>, set<Path>))
    ensures files <= res.1
    ensures res.0.Ok? ==> forall k :: 0 <= k < |fonts| ==> Join(FontsDir(w.prefix), [ToStr(fonts[k]) + ".ttf"]) in res.1
    decreases |fonts|
  {
    if fonts == [] then (Ok(()), files)
    else
      var first := InstallArchives(w, Archives(fonts[0]), tempDir, files, download, extract, copy, run);
      if first.0.Err? then first
      else
        var rest := InstallAll(w, fonts[1..], tempDir, first.1, download, extract, copy, run);
        assert forall k :: 1 <= k < |fonts| ==> fonts[k] == fonts[1..][k - 1];
        rest
  }

  /**
   * `install_fonts`: fetch and unpack the archive, then copy and register
   * each font in a loop that stops at the first error.
   */
  method InstallFonts(w: ExtWith.Wine, a: Archive, tempDir: Path, files: set<Path>,
                      download: Download, extract: Runner, copy: Copy, run: Runner)
    returns (r: Result<()>, after: set<Path>)
    ensures (r, after) == InstallArchive(w, a, tempDir, files, download, extract, copy, run)
  {
    var url := MirrorUrl(a.base);
    MirrorUrlWellFormed(a.base);
    var name := ArchiveName(url);
    var path := Join(tempDir, [name + ".exe"]);
    var temp := Join(tempDir, [name]);
    var fetched := Fetch(url, path, temp, download, extract);
    if fetched.Some? {
      return Err(fetched.value), files;
    }
    var fonts := FontsDir(w.prefix);
    after := files;
    var i := 0;
    while i < |a.fonts|
      invariant 0 <= i <= |a.fonts|
      invariant CopyAndRegister(a.fonts[i..], temp, fonts, after, copy, run)
             == CopyAndRegister(a.fonts, temp, fonts, files, copy, run)
      decreases |a.fonts| - i
    {
      var f := a.fonts[i];
      assert a.fonts[i..][1..] == a.fonts[i + 1..];
      var dst := Join(fonts, [f.file]);
      var copied := copy(Join(temp, [f.original]), dst);
      if copied.Some? {
        return Err(copied.value), after;
      }
      after := after + {dst};
      var registered := RegisterFont(f.file, f.name, run);
      if registered.Err? {
        return Err(registered.error), after;
      }
      i := i + 1;
    }
    r := Ok(());
  }

  /** One or two archives: the second is installed only after the first succeeded. */
  lemma InstallArchivesInTurn(w: ExtWith.Wine, archives: seq<Archive>, tempDir: Path, files: set<Path>,
                              download: Download, extract: Runner, copy: Copy, run: Runner)
    requires 1 <= |archives| <= 2
    ensures var first := InstallArchive(w, archives[0], tempDir, files, download, extract, copy, run);
      var all := InstallArchives(w, archives, tempDir, files, download, extract, copy, run);
      && (first.0.Err? || |archives| == 1 ==> all == first)
      && (first.0.Ok? && |archives| == 2 ==>
            all == InstallArchive(w, archives[1], tempDir, first.1, download, extract, copy, run))
  {
    var first := InstallArchive(w, archives[0], tempDir, files, download, extract, copy, run);
    var tail := archives[1..];
    if first.0.Ok? {
      if |archives| == 1 {
        assert tail == [];
        assert first.0.value == ();
      } else {
        assert tail[1..] == [];
        assert tail[0] == archives[1];
        var second := InstallArchive(w, archives[1], tempDir, first.1, download, extract, copy, run);
        if second.0.Ok? {
          assert InstallArchives(w, tail, tempDir, first.1, download, extract, copy, run) == second;
        }
      }
    }
  }

  /** `install_corefont`: the corefont's one or two archives, the second only after the first succeeded. */
  method InstallCorefont(w: ExtWith.Wine, c: Corefont, tempDir: Path, files: set<Path>,
                         download: Download, extract: Runner, copy: Copy, run: Runner)
    returns (r: Result<()>, after: set<Path>)
    ensures (r, after) == InstallArchives(w, Archives(c), tempDir, files, download, extract, copy, run)
  {
    var archives := Archives(c);
    InstallArchivesInTurn(w, archives, tempDir, files, download, extract, copy, run);
    r, after := InstallFonts(w, archives[0], tempDir, files, download, extract, copy, run);
    if r.Ok? && |archives| == 2 {
      r, after := InstallFonts(w, archives[1], tempDir, after, download, extract, copy, run);
    }
  }

  /** `install_corefonts`: every corefont in iterator order, stopping at the first error. */
  method InstallCorefonts(w: ExtWith.Wine, tempDir: Path, files: set<Path>,
                          download: Download, extract: Runner, copy: Copy, run: Runner)
    returns (r: Result<()>, after: set<Path>)
    ensures (r, after) == InstallAll(w, Iterator(), tempDir, files, download, extract, copy, run)
  {
    var fonts := Iterator();
    after := files;
    var i := 0;
    while i < |fonts|
      invariant 0 <= i <= |fonts|
      invariant InstallAll(w, fonts[i..], tempDir, after, download, extract, copy, run)
             == InstallAll(w, fonts, tempDir, files, download, extract, copy, run)
      decreases |fonts| - i
    {
      assert fonts[i..][1..] == fonts[i + 1..];
      r, after := InstallCorefont(w, fonts[i], tempDir, after, download, extract, copy, run);
      if r.Err? {
        return;
      }
      i := i + 1;
    }
    r := Ok(());
  }

  /** A corefont whose installation succeeded is reported installed. */
  lemma InstalledAfterCorefont(w: ExtWith.Wine, c: Corefont, tempDir: Path, files: set<Path>,
                               download: Download, extract: Runner, copy: Copy, run: Runner)
    ensures var res := InstallArchives(w, Archives(c), tempDir, files, download, extract, copy, run);
      res.0.Ok? ==> IsInstalled(w, ToStr(c), res.1)
  {
    var res := InstallArchives(w, Archives(c), tempDir, files, download, extract, copy, run);
    if res.0.Ok? {
      assert Join(FontsDir(w.prefix), [Archives(c)[0].fonts[0].file]) in res.1;
      InstalledByMainFile(w, ToStr(c), res.1);
    }
  }

  /** After a successful run over a list of corefonts, each of them is installed. */
  lemma InstalledAfterAll(w: ExtWith.Wine, fonts: seq<Corefont>, tempDir: Path, files: set<Path>,
                          download: Download, extract: Runner, copy: Copy, run: Runner)
    ensures var res := InstallAll(w, fonts, tempDir, files, download, extract, copy, run);
      res.0.Ok? ==> forall k :: 0 <= k < |fonts| ==> IsInstalled(w, ToStr(fonts[k]), res.1)
  {
    var res := InstallAll(w, fonts, tempDir, files, download, extract, copy, run);
    if res.0.Ok? {
      forall k | 0 <= k < |fonts| ensures IsInstalled(w, ToStr(fonts[k]), res.1) {
        InstalledByMainFile(w, ToStr(fonts[k]), res.1);
      }
    }
  }

  /** After a successful `install_corefonts`, every corefont is installed. */
  lemma AllInstalledAfterCorefonts(w: ExtWith.Wine, tempDir: Path, files: set<Path>,
                                   download: Download, extract: Runner, copy: Copy, run: Runner)
    ensures var res := InstallAll(w, Iterator(), tempDir, files, download, extract, copy, run);
      res.0.Ok? ==> forall c :: IsInstalled(w, ToStr(c), res.1)
  {
    var fonts := Iterator();
    InstalledAfterAll(w, fonts, tempDir, files, download, extract, copy, run);
    var res := InstallAll(w, fonts, tempDir, files, download, extract, copy, run);
    if res.0.Ok? {
      forall c ensures IsInstalled(w, ToStr(c), res.1) {
        assert c in fonts;
        var k :| 0 <= k < |fonts| && fonts[k] == c;
      }
    }
  }
}
