/**
 * The DXVK version scanner and the literal rewrites applied to the DXVK
 * setup script (src/dxvk.rs).
 *
 * `get_version` reads one of two DLLs of a prefix's system32 directory, cuts
 * a fixed window out of it and looks for the first "DXVK: \0v" marker in
 * that window; the version is the NUL-terminated Latin-1 text after it.
 */
module Dxvk {
  import opened Common

  // ---------------------------------------------------------------------
  // Windows and the marker
  // ---------------------------------------------------------------------

  const DxgiFrom: nat := 1600000
  const DxgiTo: nat := 1700000
  const D3d11From: nat := 2400000
  const D3d11To: nat := 2500000

  /**
   * Bytes a candidate needs after its start: the 8 marker bytes plus the
   * shortest version "#.#.#" and its terminating NUL.
   */
  const MinTail: nat := 14

  function SystemFile(prefix: Path, dll: string): Path {
    Join(prefix, ["drive_c", "windows", "system32", dll])
  }

  /** The bytes at `i` spell `D X V K : <space> <NUL> v`. */
  predicate MarkerAt(w: seq<byte>, i: nat)
    requires i + 8 <= |w|
  {
    && w[i] == 68 && w[i + 1] == 88 && w[i + 2] == 86 && w[i + 3] == 75
    && w[i + 4] == 58 && w[i + 5] == 32 && w[i + 6] == 0 && w[i + 7] == 118
  }

  /** The lowest candidate at or after `i` that holds the marker. */
  function FirstMarkerFrom(w: seq<byte>, i: nat): (r: Option<nat>)
    requires MinTail <= |w| && i <= |w| - MinTail
    ensures r.Some? ==>
      && i <= r.value < |w| - MinTail && MarkerAt(w, r.value)
      && forall j :: i <= j < r.value ==> !MarkerAt(w, j)
    ensures r.None? ==> forall j :: i <= j < |w| - MinTail ==> !MarkerAt(w, j)
    decreases |w| - MinTail - i
  {
    if i == |w| - MinTail then None
    else if MarkerAt(w, i) then Some(i)
    else FirstMarkerFrom(w, i + 1)
  }

  /** The bytes of `s` before its first NUL (all of `s` when it has none). */
  function UntilNul(s: seq<byte>): (r: seq<byte>)
    ensures |r| <= |s| && r == s[..|r|]
    ensures 0 !in r
    ensures |r| == |s| || s[|r|] == 0
    decreases |s|
  {
    if s == [] || s[0] == 0 then [] else [s[0]] + UntilNul(s[1..])
  }

  /** Any NUL-free prefix ending at a NUL (or at the end) is what `UntilNul` cuts. */
  lemma {:induction false} UntilNulUnique(s: seq<byte>, n: nat)
    requires n <= |s| && 0 !in s[..n]
    requires n == |s| || s[n] == 0
    ensures UntilNul(s) == s[..n]
    decreases n
  {
    if n > 0 {
      assert s[..n][0] == s[0];
      assert s[1..][..n - 1] == s[..n][1..];
      UntilNulUnique(s[1..], n - 1);
      assert [s[0]] + s[1..][..n - 1] == s[..n];
    }
  }

  /** Each byte as the char with that code point (`u8 as char`, Latin-1). */
  function Latin1(bs: seq<byte>): (r: string)
    ensures |r| == |bs|
    ensures forall k :: 0 <= k < |bs| ==> r[k] as int == bs[k]
  {
    seq(|bs|, k requires 0 <= k < |bs| => bs[k] as char)
  }

  /**
   * What scanning one window yields: the text after the first marker up to
   * the first NUL or the window's end, or nothing when no candidate holds
   * the marker.
   */
  function Scan(w: seq<byte>): (r: Option<string>)
    requires MinTail <= |w|
    ensures r.None? <==> forall i :: 0 <= i < |w| - MinTail ==> !MarkerAt(w, i)
    ensures r.Some? ==> '\0' !in r.value && |r.value| <= |w| - 8
  {
    match FirstMarkerFrom(w, 0)
    case None => None
    case Some(i) => Some(Latin1(UntilNul(w[i + 8..])))
  }

  /** The window of a file that `get_version` scans, if the file is long enough. */
  function ScanFile(bytes: seq<byte>, from: nat, to: nat): Option<string>
    requires from + MinTail <= to
  {
    if |bytes| > to then Scan(bytes[from..to]) else None
  }

  // ---------------------------------------------------------------------
  // The scanner
  // ---------------------------------------------------------------------

  /** The `for i` loop of `get_version` over one window. */
  method ScanWindow(w: seq<byte>) returns (version: Option<string>)
    requires MinTail <= |w|
    ensures version == Scan(w)
  {
    for i := 0 to |w| - MinTail
      invariant FirstMarkerFrom(w, i) == FirstMarkerFrom(w, 0)
    {
      if w[i] == 68 && w[i + 1] == 88 && w[i + 2] == 86 && w[i + 3] == 75
        && w[i + 4] == 58 && w[i + 5] == 32 && w[i + 6] == 0 && w[i + 7] == 118
      {
        var text := "";
        var j := i + 8;
        while j < |w| && w[j] != 0
          invariant i + 8 <= j <= |w|
          invariant 0 !in w[i + 8..j]
          invariant text == Latin1(w[i + 8..j])
        {
          assert w[i + 8..j + 1] == w[i + 8..j] + [w[j]];
          text := text + [w[j] as char];
          j := j + 1;
        }
        assert w[i + 8..][..j - (i + 8)] == w[i + 8..j];
        UntilNulUnique(w[i + 8..], j - (i + 8));
        return Some(text);
      }
    }
    return None;
  }

  /**
   * `Dxvk::get_version`: `read` gives the bytes of a file or the error
   * reading it raised.
   */
  method GetVersion(prefix: Path, read: Path -> Result<seq<byte>>) returns (r: Result<Option<string>>)
    ensures read(SystemFile(prefix, "dxgi.dll")).Ok? ==>
      r == Ok(ScanFile(read(SystemFile(prefix, "dxgi.dll")).value, DxgiFrom, DxgiTo))
    ensures read(SystemFile(prefix, "dxgi.dll")).Err? && read(SystemFile(prefix, "d3d11.dll")).Ok? ==>
      r == Ok(ScanFile(read(SystemFile(prefix, "d3d11.dll")).value, D3d11From, D3d11To))
    ensures read(SystemFile(prefix, "dxgi.dll")).Err? && read(SystemFile(prefix, "d3d11.dll")).Err? ==>
      r == Err(read(SystemFile(prefix, "d3d11.dll")).error)
  {
    var bytes: seq<byte>, from: nat, to: nat;
    match read(SystemFile(prefix, "dxgi.dll")) {
      case Ok(b) =>
        bytes, from, to := b, DxgiFrom, DxgiTo;
      case Err(_) =>
        match read(SystemFile(prefix, "d3d11.dll")) {
          case Err(e) => return Err(e);
          case Ok(b) => bytes, from, to := b, D3d11From, D3d11To;
        }
    }
    if |bytes| > to {
      var found := ScanWindow(bytes[from..to]);
      return Ok(found);
    }
    return Ok(None);
  }


  // ---------------------------------------------------------------------
  // What the scan promises
  // ---------------------------------------------------------------------

  /** A marker with no marker before it, from `j` on, is the one the scan finds. */
  lemma {:induction false} FirstMarkerIs(w: seq<byte>, j: nat, i: nat)
    requires MinTail <= |w| && j <= i < |w| - MinTail && MarkerAt(w, i)
    requires forall k :: j <= k < i ==> !MarkerAt(w, k)
    ensures FirstMarkerFrom(w, j) == Some(i)
    decreases i - j
  {
    if j < i {
      FirstMarkerIs(w, j + 1, i);
    }
  }

  /**
   * A window whose first marker is followed by a NUL-free text and a NUL
   * yields exactly that text.
   */
  lemma ScanFindsFirstVersion(w: seq<byte>, i: nat, v: seq<byte>)
    requires MinTail <= |w| && i < |w| - MinTail && MarkerAt(w, i)
    requires forall j :: 0 <= j < i ==> !MarkerAt(w, j)
    requires i + 8 + |v| < |w| && w[i + 8..i + 8 + |v|] == v && 0 !in v && w[i + 8 + |v|] == 0
    ensures Scan(w) == Some(Latin1(v))
  {
    FirstMarkerIs(w, 0, i);
    var s := w[i + 8..];
    assert s[..|v|] == v;
    assert s[|v|] == 0;
    UntilNulUnique(s, |v|);
  }

  /** A version that runs to the window's end is cut there. */
  lemma ScanCutsAtWindowEnd(w: seq<byte>, i: nat)
    requires MinTail <= |w| && i < |w| - MinTail && MarkerAt(w, i)
    requires forall j :: 0 <= j < i ==> !MarkerAt(w, j)
    requires 0 !in w[i + 8..]
    ensures Scan(w) == Some(Latin1(w[i + 8..]))
  {
    FirstMarkerIs(w, 0, i);
    var s := w[i + 8..];
    assert s[..|s|] == s;
    UntilNulUnique(s, |s|);
  }

  // ---------------------------------------------------------------------
  // prepare_script: the literal rewrites
  // ---------------------------------------------------------------------

  predicate OccursAt(s: string, pat: string, i: nat) {
    i + |pat| <= |s| && s[i..i + |pat|] == pat
  }

  /** `pat` occurs nowhere in `s`. */
  ghost predicate Absent(s: string, pat: string) {
    forall i: nat :: !OccursAt(s, pat, i)
  }

  /** The lowest occurrence of `pat` in `s` at or after `i`. */
  function FindFrom(s: string, pat: string, i: nat): (r: Option<nat>)
    requires |pat| > 0 && i <= |s|
    ensures r.Some? ==> i <= r.value && OccursAt(s, pat, r.value)
    ensures r.Some? ==> forall j: nat :: i <= j < r.value ==> !OccursAt(s, pat, j)
    ensures r.None? ==> forall j: nat :: i <= j ==> !OccursAt(s, pat, j)
    decreases |s| - i
  {
    if i + |pat| > |s| then None
    else if OccursAt(s, pat, i) then Some(i)
    else FindFrom(s, pat, i + 1)
  }

  /** `str::replace`: every non-overlapping occurrence, left to right. */
  function ReplaceAll(s: string, pat: string, rep: string): string
    requires |pat| > 0
    decreases |s|
  {
    match FindFrom(s, pat, 0)
    case None => s
    case Some(i) => s[..i] + rep + ReplaceAll(s[i + |pat|..], pat, rep)
  }

  /** The command the first rewrite takes out of the script. */
  const WinebootUpdate: string := "$wineboot -u"

  /** The rewrites in source order: (pattern, replacement). */
  const Rewrites: seq<(string, string)> := [
    (WinebootUpdate, "\"$wine64\" -u"),
    ("which $wineboot", "which \"$wineboot\""),
    ("$wine --version", "\"$wine\" --version"),
    ("$wine64 winepath", "\"$wine64\" winepath"),
    ("$wine winepath", "\"$wine\" winepath"),
    ("$wine reg", "\"$wine\" reg"),
    ("grep wine", "grep \"wine\\|GE\"")
  ]

  function ApplyRewrites(s: string, rules: seq<(string, string)>): string
    requires forall k :: 0 <= k < |rules| ==> |rules[k].0| > 0
    decreases |rules|
  {
    if rules == [] then s else ApplyRewrites(ReplaceAll(s, rules[0].0, rules[0].1), rules[1..])
  }

  /**
   * The literal part of `prepare_script`: the script reassigned once per
   * rewrite. No "$wineboot -u" is left, so the DXVK script updates the
   * prefix with wine64 only.
   */
  method PrepareScript(script: string) returns (s: string)
    ensures s == ApplyRewrites(script, Rewrites)
    ensures Absent(s, WinebootUpdate)
  {
    RewritesBarred();
    s := ReplaceAll(script, WinebootUpdate, "\"$wine64\" -u");
    ReplaceRemovesBarred(script, WinebootUpdate, "\"$wine64\" -u", 0, 8);
    ghost var before := s;
    s := ReplaceAll(s, "which $wineboot", "which \"$wineboot\"");
    ReplaceRemovesBarred(before, "which $wineboot", "which \"$wineboot\"", 6, 16);
    before := s;
    s := ReplaceAll(s, "$wine --version", "\"$wine\" --version");
    ReplaceRemovesBarred(before, "$wine --version", "\"$wine\" --version", 0, 6);
    before := s;
    s := ReplaceAll(s, "$wine64 winepath", "\"$wine64\" winepath");
    ReplaceRemovesBarred(before, "$wine64 winepath", "\"$wine64\" winepath", 0, 8);
    before := s;
    s := ReplaceAll(s, "$wine winepath", "\"$wine\" winepath");
    ReplaceRemovesBarred(before, "$wine winepath", "\"$wine\" winepath", 0, 6);
    before := s;
    s := ReplaceAll(s, "$wine reg", "\"$wine\" reg");
    ReplaceRemovesBarred(before, "$wine reg", "\"$wine\" reg", 0, 6);
    before := s;
    s := ReplaceAll(s, "grep wine", "grep \"wine\\|GE\"");
    ReplaceRemovesBarred(before, "grep wine", "grep \"wine\\|GE\"", 5, 14);
    ApplyRewritesInOrder(script);
  }

  lemma ApplyRewritesInOrder(script: string)
    ensures ApplyRewrites(script, Rewrites) ==
      var s1 := ReplaceAll(script, WinebootUpdate, "\"$wine64\" -u");
      var s2 := ReplaceAll(s1, "which $wineboot", "which \"$wineboot\"");
      var s3 := ReplaceAll(s2, "$wine --version", "\"$wine\" --version");
      var s4 := ReplaceAll(s3, "$wine64 winepath", "\"$wine64\" winepath");
      var s5 := ReplaceAll(s4, "$wine winepath", "\"$wine\" winepath");
      var s6 := ReplaceAll(s5, "$wine reg", "\"$wine\" reg");
      ReplaceAll(s6, "grep wine", "grep \"wine\\|GE\"")
  {
    var t := Rewrites;
    var s1 := ReplaceAll(script, t[0].0, t[0].1);
    var s2 := ReplaceAll(s1, t[1].0, t[1].1);
    var s3 := ReplaceAll(s2, t[2].0, t[2].1);
    var s4 := ReplaceAll(s3, t[3].0, t[3].1);
    var s5 := ReplaceAll(s4, t[4].0, t[4].1);
    var s6 := ReplaceAll(s5, t[5].0, t[5].1);
    var s7 := ReplaceAll(s6, t[6].0, t[6].1);
    assert t[6..][1..] == [];
    assert ApplyRewrites(s6, t[6..]) == s7;
    assert t[5..][1..] == t[6..];
    assert ApplyRewrites(s5, t[5..]) == s7;
    assert t[4..][1..] == t[5..];
    assert ApplyRewrites(s4, t[4..]) == s7;
    assert t[3..][1..] == t[4..];
    assert ApplyRewrites(s3, t[3..]) == s7;
    assert t[2..][1..] == t[3..];
    assert ApplyRewrites(s2, t[2..]) == s7;
    assert t[1..][1..] == t[2..];
    assert ApplyRewrites(s1, t[1..]) == s7;
  }

  // ---------------------------------------------------------------------
  // Why no "$wineboot -u" survives
  // ---------------------------------------------------------------------

  /**
   * A replacement that "$wineboot -u" cannot cross: it holds two characters
   * foreign to the pattern at `qf <= ql`, at most |pattern| apart, no 'u'
   * (the pattern's last character) before `qf` and no '$' (its first) after
   * `ql`.
   */
  predicate Barred(rep: string, qf: nat, ql: nat) {
    var p := WinebootUpdate;
    && qf <= ql < |rep|
    && rep[qf] !in p && rep[ql] !in p
    && ql - qf <= |p|
    && (forall k :: 0 <= k < qf ==> rep[k] != p[|p| - 1])
    && (forall k :: ql < k < |rep| ==> rep[k] != p[0])
  }

  lemma RewritesBarred()
    ensures Barred("\"$wine64\" -u", 0, 8)
    ensures Barred("which \"$wineboot\"", 6, 16)
    ensures Barred("\"$wine\" --version", 0, 6)
    ensures Barred("\"$wine64\" winepath", 0, 8)
    ensures Barred("\"$wine\" winepath", 0, 6)
    ensures Barred("\"$wine\" reg", 0, 6)
    ensures Barred("grep \"wine\\|GE\"", 5, 14)
  {
  }

  /** One differing character rules an occurrence out. */
  lemma MismatchAt(z: string, p: string, j: nat, k: nat)
    requires j <= k < j + |p| <= |z| && z[k] != p[k - j]
    ensures !OccursAt(z, p, j)
  {
    assert z[j..j + |p|][k - j] == z[k];
  }

  /** A window of a slice is a window of the whole. */
  lemma OccursInSlice(s: string, a: nat, b: nat, p: string, j: nat)
    requires a <= b <= |s| && j + |p| <= b - a
    ensures OccursAt(s[a..b], p, j) <==> OccursAt(s, p, a + j)
  {
    var u, v := s[a..b][j..j + |p|], s[a + j..a + j + |p|];
    forall k | 0 <= k < |p| ensures u[k] == v[k] {
      assert u[k] == s[a + j + k];
    }
    assert u == v;
  }

  lemma NoOccurrenceAcrossBarrier(x: string, rep: string, y: string, qf: nat, ql: nat)
    requires Barred(rep, qf, ql) && Absent(x, WinebootUpdate) && Absent(y, WinebootUpdate)
    ensures Absent(x + rep + y, WinebootUpdate)
  {
    var p, z := WinebootUpdate, x + rep + y;
    var a, b := |x| + qf, |x| + ql;
    forall j: nat ensures !OccursAt(z, p, j) {
      var e := j + |p| - 1;
      if e < |z| {
        if j <= a {
          if a <= e {
            MismatchAt(z, p, j, a);
          } else if e < |x| {
            OccursInSlice(z, 0, |x|, p, j);
            assert z[0..|x|] == x;
          } else {
            assert z[e] == rep[e - |x|];
            MismatchAt(z, p, j, e);
          }
        } else if j <= b {
          MismatchAt(z, p, j, b);
        } else if j < |x| + |rep| {
          assert z[j] == rep[j - |x|];
          MismatchAt(z, p, j, j);
        } else {
          OccursInSlice(z, |x| + |rep|, |z|, p, j - |x| - |rep|);
          assert z[|x| + |rep|..|z|] == y;
        }
      }
    }
  }

  /**
   * Replacing with a barred text keeps "$wineboot -u" out: either it was not
   * there, or it is the very pattern being replaced.
   */
  lemma {:induction false} ReplaceRemovesBarred(s: string, pat: string, rep: string, qf: nat, ql: nat)
    requires |pat| > 0 && Barred(rep, qf, ql)
    requires Absent(s, WinebootUpdate) || pat == WinebootUpdate
    ensures Absent(ReplaceAll(s, pat, rep), WinebootUpdate)
    decreases |s|
  {
    var p := WinebootUpdate;
    match FindFrom(s, pat, 0)
    case None =>
    case Some(i) =>
      var x, rest := s[..i], s[i + |pat|..];
      forall j: nat ensures !OccursAt(x, p, j) {
        if j + |p| <= |x| {
          OccursInSlice(s, 0, i, p, j);
        }
      }
      if pat != p {
        forall j: nat ensures !OccursAt(rest, p, j) {
          if j + |p| <= |rest| {
            OccursInSlice(s, i + |pat|, |s|, p, j);
            assert s[i + |pat|..|s|] == rest;
          }
        }
      }
      ReplaceRemovesBarred(rest, pat, rep, qf, ql);
      NoOccurrenceAcrossBarrier(x, rep, ReplaceAll(rest, pat, rep), qf, ql);
  }
}
