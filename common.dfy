/**
 * Shared vocabulary of the model: optional values and results, errors,
 * paths as component sequences, process commands, and the small string
 * utilities (joining, splitting, decimal rendering, the "last line of
 * stdout" diagnostic) that several source files use.
 */
module Common {

  datatype Option<T> = None | Some(value: T)

  /** The `std::io::Result` / `anyhow::Result` of the source, with one error type. */
  datatype Result<T> = Ok(value: T) | Err(error: Error)

  datatype ErrorKind = InvalidInput | NotFound | Other

  datatype Error = Error(kind: ErrorKind, message: string)

  type byte = x: int | 0 <= x < 256

  type u32 = x: int | 0 <= x < 0x1_0000_0000

  // ---------------------------------------------------------------------
  // Paths
  // ---------------------------------------------------------------------

  /**
   * A `PathBuf`: rooted or relative, with its normal components. Joining a
   * relative path appends components; `parent` drops the last one and is
   * absent for a path without components ("/" or "").
   */
  datatype Path = Path(absolute: bool, parts: seq<string>)

  /** `PathBuf::from(name)` for a single relative component. */
  function Named(name: string): Path {
    Path(false, [name])
  }

  function Join(p: Path, rel: seq<string>): Path {
    Path(p.absolute, p.parts + rel)
  }

  function Parent(p: Path): (r: Option<Path>)
    ensures r.None? <==> p.parts == []
    ensures r.Some? ==> Join(r.value, [p.parts[|p.parts| - 1]]) == p
  {
    if p.parts == [] then None else Some(Path(p.absolute, p.parts[..|p.parts| - 1]))
  }

  /** The path as the OS string the source passes to a child process. */
  function Render(p: Path): string {
    (if p.absolute then "/" else "") + JoinWith(p.parts, '/')
  }

  /** Whether a file or directory exists: the filesystem is abstract. */
  type Exists = Path -> bool

  // ---------------------------------------------------------------------
  // Joining and splitting
  // ---------------------------------------------------------------------

  /** `parts.join(sep)`: the parts with one separator between neighbours. */
  function JoinWith(parts: seq<string>, sep: char): string
    decreases |parts|
  {
    if |parts| == 0 then ""
    else if |parts| == 1 then parts[0]
    else parts[0] + [sep] + JoinWith(parts[1..], sep)
  }

  /** `s.split(sep)`: every maximal run between separators, empty runs included. */
  function Split(s: string, sep: char): (r: seq<string>)
    ensures |r| > 0
    decreases |s|
  {
    if s == [] then [""]
    else if s[0] == sep then [""] + Split(s[1..], sep)
    else
      var rest := Split(s[1..], sep);
      [[s[0]] + rest[0]] + rest[1..]
  }

  lemma {:induction false} SplitNoSeparator(s: string, sep: char)
    requires sep !in s
    ensures Split(s, sep) == [s]
    decreases |s|
  {
    if s != [] {
      assert sep !in s[1..] by {
        forall k | 0 <= k < |s[1..]| ensures s[1..][k] != sep { assert s[1..][k] == s[k + 1]; }
      }
      SplitNoSeparator(s[1..], sep);
      assert [s[0]] + s[1..] == s;
    }
  }

  /** A separator followed by a separator-free tail: the tail is the last field. */
  lemma {:induction false} SplitLastField(x: string, sep: char, y: string)
    requires sep !in y
    ensures |Split(x + [sep] + y, sep)| >= 2
    ensures var r := Split(x + [sep] + y, sep); r[|r| - 1] == y
    decreases |x|
  {
    var s := x + [sep] + y;
    if x == [] {
      assert s == [sep] + y;
      assert s[1..] == y;
      SplitNoSeparator(y, sep);
    } else {
      SplitLastField(x[1..], sep, y);
      assert s[1..] == x[1..] + [sep] + y;
      assert s[0] == x[0];
    }
  }

  /** Whatever comes before it, a separator-free tail ends the last field. */
  lemma {:induction false} SplitLastSuffix(x: string, sep: char, y: string)
    requires sep !in y
    ensures var r := Split(x + y, sep); var last := r[|r| - 1];
      |last| >= |y| && last[|last| - |y|..] == y
    decreases |x|
  {
    var s := x + y;
    if x == [] {
      assert s == y;
      SplitNoSeparator(y, sep);
    } else {
      SplitLastSuffix(x[1..], sep, y);
      assert s[1..] == x[1..] + y;
      var rest := Split(s[1..], sep);
      if s[0] != sep && |rest| == 1 {
        var head := [s[0]] + rest[0];
        assert Split(s, sep) == [head];
        assert head[|head| - |y|..] == rest[0][|rest[0]| - |y|..];
      }
    }
  }

  /** Splitting after a separator-free head: the head is the first field. */
  lemma {:induction false} SplitAfterField(x: string, sep: char, y: string)
    requires sep !in x
    ensures Split(x + [sep] + y, sep) == [x] + Split(y, sep)
    decreases |x|
  {
    if x == [] {
      assert x + [sep] + y == [sep] + y;
      assert ([sep] + y)[1..] == y;
    } else {
      var t := x[1..];
      assert sep !in t by {
        forall k | 0 <= k < |t| ensures t[k] != sep { assert t[k] == x[k + 1]; }
      }
      SplitAfterField(t, sep, y);
      assert (x + [sep] + y)[1..] == t + [sep] + y;
      assert (x + [sep] + y)[0] == x[0];
      assert [x[0]] + t == x;
    }
  }

  /** Splitting a join gives the parts back when no part holds the separator. */
  lemma {:induction false} SplitJoin(parts: seq<string>, sep: char)
    requires |parts| > 0
    requires forall i :: 0 <= i < |parts| ==> sep !in parts[i]
    ensures Split(JoinWith(parts, sep), sep) == parts
    decreases |parts|
  {
    if |parts| == 1 {
      SplitNoSeparator(parts[0], sep);
    } else {
      SplitJoin(parts[1..], sep);
      SplitAfterField(parts[0], sep, JoinWith(parts[1..], sep));
      assert [parts[0]] + parts[1..] == parts;
    }
  }

  // ---------------------------------------------------------------------
  // Decimal rendering (`u32::to_string`)
  // ---------------------------------------------------------------------

  function DigitChar(d: nat): char
    requires d < 10
  {
    "0123456789"[d]
  }

  predicate IsDigit(c: char) {
    '0' <= c <= '9'
  }

  /** The shortest decimal rendering of `n`: digits only, no leading zero. */
  function Decimal(n: nat): (s: string)
    ensures |s| > 0
    ensures forall k :: 0 <= k < |s| ==> IsDigit(s[k])
    ensures s[0] == '0' ==> n == 0
    decreases n
  {
    if n < 10 then [DigitChar(n)] else Decimal(n / 10) + [DigitChar(n % 10)]
  }

  /** Reads a run of decimal digits, most significant first. */
  function ParseDecimal(s: string): nat
    requires forall k :: 0 <= k < |s| ==> IsDigit(s[k])
    decreases |s|
  {
    if s == [] then 0
    else
      var last := s[|s| - 1];
      assert IsDigit(last);
      ParseDecimal(s[..|s| - 1]) * 10 + (last as int - '0' as int)
  }

  lemma {:induction false} DecimalRoundTrip(n: nat)
    ensures ParseDecimal(Decimal(n)) == n
    decreases n
  {
    if n >= 10 {
      var s := Decimal(n);
      var h := Decimal(n / 10);
      DecimalRoundTrip(n / 10);
      assert s[..|s| - 1] == h;
      assert s[|s| - 1] == DigitChar(n % 10);
    }
  }

  // ---------------------------------------------------------------------
  // Processes
  // ---------------------------------------------------------------------

  /**
   * What a `std::process::Command` is set up with before it is spawned:
   * the program, the argument vector and the variables set on top of the
   * inherited environment.
   */
  datatype Command = Command(program: string, args: seq<string>, env: map<string, string>)

  /** The captured result of a finished child process. */
  datatype Output = Output(success: bool, stdout: string)

  /**
   * A subprocess oracle: what running the given argument vector yields, or
   * the I/O error that spawning or waiting raised.
   */
  type Runner = seq<string> -> Result<Output>

  /** What spawning a fully set-up command and waiting for it yields. */
  type Spawner = Command -> Result<Output>

  /** `Command::envs(pairs)`: each pair in turn, so a later pair wins. */
  function ApplyEnvs(env: map<string, string>, pairs: seq<(string, string)>): map<string, string>
    decreases |pairs|
  {
    if pairs == [] then env else ApplyEnvs(env[pairs[0].0 := pairs[0].1], pairs[1..])
  }

  /** The value the last pair for `key` gives it, if any pair names `key`. */
  function LastValue(pairs: seq<(string, string)>, key: string): (r: Option<string>)
    ensures r.None? <==> forall i :: 0 <= i < |pairs| ==> pairs[i].0 != key
    ensures r.Some? ==> exists i :: 0 <= i < |pairs| && pairs[i] == (key, r.value)
    decreases |pairs|
  {
    if pairs == [] then None
    else if pairs[|pairs| - 1].0 == key then Some(pairs[|pairs| - 1].1)
    else LastValue(pairs[..|pairs| - 1], key)
  }

  lemma {:induction false} LastValueCons(p: (string, string), pairs: seq<(string, string)>, key: string)
    ensures LastValue([p] + pairs, key) ==
      (if LastValue(pairs, key).Some? then LastValue(pairs, key)
       else if p.0 == key then Some(p.1) else None)
    decreases |pairs|
  {
    if pairs != [] {
      var q := [p] + pairs;
      assert q[..|q| - 1] == [p] + pairs[..|pairs| - 1];
      assert q[|q| - 1] == pairs[|pairs| - 1];
      LastValueCons(p, pairs[..|pairs| - 1], key);
    }
  }

  /** Overlaying pairs: a named key takes its last pair's value, others keep theirs. */
  lemma {:induction false} ApplyEnvsLastWins(env: map<string, string>, pairs: seq<(string, string)>, key: string)
    ensures key in ApplyEnvs(env, pairs) <==> key in env || LastValue(pairs, key).Some?
    ensures LastValue(pairs, key).Some? ==> ApplyEnvs(env, pairs)[key] == LastValue(pairs, key).value
    ensures LastValue(pairs, key).None? && key in env ==> ApplyEnvs(env, pairs)[key] == env[key]
    decreases |pairs|
  {
    if pairs != [] {
      ApplyEnvsLastWins(env[pairs[0].0 := pairs[0].1], pairs[1..], key);
      LastValueCons(pairs[0], pairs[1..], key);
      assert [pairs[0]] + pairs[1..] == pairs;
    }
  }

  /** `ApplyEnvsLastWins` for every key at once. */
  lemma ApplyEnvsOverlay(env: map<string, string>, pairs: seq<(string, string)>)
    ensures forall key :: key in ApplyEnvs(env, pairs) <==> key in env || LastValue(pairs, key).Some?
    ensures forall key :: LastValue(pairs, key).Some? ==> ApplyEnvs(env, pairs)[key] == LastValue(pairs, key).value
    ensures forall key :: LastValue(pairs, key).None? && key in env ==> ApplyEnvs(env, pairs)[key] == env[key]
  {
    forall key {
      ApplyEnvsLastWins(env, pairs, key);
    }
  }

  // ---------------------------------------------------------------------
  // The "last line of stdout" diagnostic
  // ---------------------------------------------------------------------

  /** `char::is_whitespace`: the Unicode White_Space property. */
  predicate IsWhitespace(c: char) {
    || c == ' ' || ('\t' <= c <= '\r') || c == '\U{85}' || c == '\U{A0}' || c == '\U{1680}'
    || ('\U{2000}' <= c <= '\U{200A}') || c == '\U{2028}' || c == '\U{2029}' || c == '\U{202F}'
    || c == '\U{205F}' || c == '\U{3000}'
  }

  /** `str::trim_end`: drops the trailing whitespace and nothing else. */
  function TrimEnd(s: string): (r: string)
    ensures |r| <= |s| && r == s[..|r|]
    ensures r == [] || !IsWhitespace(r[|r| - 1])
    ensures forall k :: |r| <= k < |s| ==> IsWhitespace(s[k])
    decreases |s|
  {
    if s == [] || !IsWhitespace(s[|s| - 1]) then s else TrimEnd(s[..|s| - 1])
  }

  /** What follows the last line feed of `t` (all of `t` when it has none). */
  function AfterLastNewline(t: string): (r: string)
    ensures |r| <= |t| && r == t[|t| - |r|..]
    ensures '\n' !in r
    ensures |r| == |t| || t[|t| - |r| - 1] == '\n'
    decreases |t|
  {
    if t == [] || t[|t| - 1] == '\n' then [] else AfterLastNewline(t[..|t| - 1]) + [t[|t| - 1]]
  }

  /**
   * `stdout.trim_end().lines().last().unwrap_or(&stdout)`: the last line of
   * the trimmed text, or the whole text when trimming leaves nothing.
   */
  function LastLine(stdout: string): (r: string)
    ensures TrimEnd(stdout) == [] ==> r == stdout
    ensures TrimEnd(stdout) != [] ==>
      var t := TrimEnd(stdout);
      && r != [] && '\n' !in r && !IsWhitespace(r[|r| - 1])
      && |r| <= |t| && r == t[|t| - |r|..]
      && (|r| == |t| || t[|t| - |r| - 1] == '\n')
  {
    var t := TrimEnd(stdout);
    if t == [] then stdout else AfterLastNewline(t)
  }
}
