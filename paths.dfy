/**
 * Path strings as the session builds and inspects them: POSIX `os.path.join`,
 * `os.path.splitext`, ASCII lower-casing, decimal rendering of the millisecond
 * timestamp, and the names of the scratch directory and of its audio files.
 */
module Paths {

  type Path = string

  /** Lower-cases one character (ASCII letters only). */
  function LowerChar(c: char): char
  {
    if 'A' <= c <= 'Z' then (c as int + 32) as char else c
  }

  /** `s.lower()` restricted to ASCII letters. */
  function Lower(s: string): (r: string)
    ensures |r| == |s|
    ensures forall i :: 0 <= i < |r| ==> !('A' <= r[i] <= 'Z')
    ensures forall i :: 0 <= i < |s| && !('A' <= s[i] <= 'Z') ==> r[i] == s[i]
  {
    seq(|s|, i requires 0 <= i < |s| => LowerChar(s[i]))
  }

  lemma LowerAppend(a: string, b: string)
    ensures Lower(a + b) == Lower(a) + Lower(b)
  {
  }

  predicate EndsWith(s: string, suffix: string)
  {
    |suffix| <= |s| && s[|s| - |suffix|..] == suffix
  }

  // ---------------------------------------------------------------------------
  // os.path.join (POSIX)

  /** What `join(dir, name)` puts in front of a relative name. */
  function DirPrefix(dir: Path): string
  {
    if dir == "" || dir[|dir| - 1] == '/' then dir else dir + "/"
  }

  /** `os.path.join(dir, name)`: an absolute name replaces the directory. */
  function Join(dir: Path, name: string): (p: Path)
    ensures (name == [] || name[0] != '/') ==> p == DirPrefix(dir) + name
  {
    if |name| > 0 && name[0] == '/' then name
    else if dir == "" || dir[|dir| - 1] == '/' then dir + name
    else dir + "/" + name
  }

  /**
   * `p` is `join(dir, n)` for an entry name `n` that `os.listdir(dir)` could
   * return: a non-empty name without a separator.
   */
  predicate DirectChild(dir: Path, p: Path)
  {
    var pre := DirPrefix(dir);
    |pre| < |p| && p[..|pre|] == pre && '/' !in p[|pre|..]
  }

  lemma JoinIsDirectChild(dir: Path, name: string)
    requires name != [] && '/' !in name
    ensures DirectChild(dir, Join(dir, name))
  {
    var pre := DirPrefix(dir);
    assert Join(dir, name)[|pre|..] == name;
  }

  lemma {:induction false} JoinInjective(dir: Path, a: string, b: string)
    requires a == [] || a[0] != '/'
    requires b == [] || b[0] != '/'
    requires Join(dir, a) == Join(dir, b)
    ensures a == b
  {
    var pre := DirPrefix(dir);
    assert a == (pre + a)[|pre|..];
    assert b == (pre + b)[|pre|..];
  }

  // ---------------------------------------------------------------------------
  // os.path.splitext (POSIX)

  /** Index of the last occurrence of `c` in `s`, or -1 (`str.rfind`). */
  function LastIndex(s: string, c: char): (r: int)
    ensures -1 <= r < |s|
    ensures r >= 0 ==> s[r] == c
    ensures forall j :: r < j < |s| ==> s[j] != c
    ensures r == -1 <==> c !in s
    decreases |s|
  {
    if s == [] then -1
    else if s[|s| - 1] == c then |s| - 1
    else LastIndex(s[..|s| - 1], c)
  }

  lemma {:induction false} LastIndexAppend(a: string, b: string, c: char)
    ensures LastIndex(a + b, c) == if c in b then |a| + LastIndex(b, c) else LastIndex(a, c)
    decreases |b|
  {
    if b == [] {
      assert a + b == a;
    } else if b[|b| - 1] == c {
    } else {
      assert (a + b)[..|a + b| - 1] == a + b[..|b| - 1];
      LastIndexAppend(a, b[..|b| - 1], c);
      assert c in b <==> c in b[..|b| - 1] by {
        assert b == b[..|b| - 1] + [b[|b| - 1]];
      }
    }
  }

  /**
   * The final path component of `stem` holds a character other than '.',
   * so a trailing ".ext" after it counts as an extension.
   */
  predicate NamedStem(stem: string)
  {
    exists k :: LastIndex(stem, '/') < k < |stem| && stem[k] != '.'
  }

  /**
   * `os.path.splitext(p)`: the extension runs from the last '.' of the final
   * component to the end; the dots a component starts with do not count.
   */
  function SplitExt(p: Path): (r: (string, string))
    ensures r.0 + r.1 == p
    ensures r.1 == [] || (r.1[0] == '.' && '.' !in r.1[1..] && '/' !in r.1)
    ensures r.1 != [] ==> NamedStem(r.0)
  {
    var sep := LastIndex(p, '/');
    var dot := LastIndex(p, '.');
    if dot > sep && exists k :: sep < k < dot && p[k] != '.' then
      SplitExtStem(p, sep, dot);
      (p[..dot], p[dot..])
    else
      (p, "")
  }

  /** Cutting at the last '.', when a non-dot precedes it in the final component. */
  lemma SplitExtStem(p: Path, sep: int, dot: int)
    requires sep == LastIndex(p, '/') && dot == LastIndex(p, '.')
    requires dot > sep && exists k :: sep < k < dot && p[k] != '.'
    ensures 0 <= dot < |p| && p[..dot] + p[dot..] == p
    ensures p[dot..][0] == '.' && '.' !in p[dot..][1..] && '/' !in p[dot..]
    ensures NamedStem(p[..dot])
  {
    NoCharAfter(p, '/', sep, dot);
    NoCharAfter(p, '.', dot, dot + 1);
    LastIndexPrefix(p, '/', dot);
    var k :| sep < k < dot && p[k] != '.';
    CutAt(p, dot, k);
  }

  /** Slicing facts about a cut at `n`, kept apart from any recursive definition. */
  lemma CutAt(s: string, n: nat, k: nat)
    requires k < n < |s|
    ensures s[..n] + s[n..] == s && s[n..][0] == s[n] && s[n..][1..] == s[n + 1..]
    ensures s[..n][k] == s[k]
  {
  }

  /** Cutting off a suffix without `c` keeps the last `c`. */
  lemma LastIndexPrefix(s: string, c: char, n: nat)
    requires n <= |s| && c !in s[n..]
    ensures LastIndex(s[..n], c) == LastIndex(s, c)
  {
    LastIndexAppend(s[..n], s[n..], c);
    assert s[..n] + s[n..] == s;
  }

  /** No occurrence after the last one, read as a suffix. */
  lemma NoCharAfter(s: string, c: char, last: int, from: nat)
    requires last == LastIndex(s, c) && last < from <= |s|
    ensures c !in s[from..]
  {
    forall j | 0 <= j < |s| - from
      ensures s[from..][j] != c
    {
      assert s[from..][j] == s[from + j];
    }
  }

  /** A named stem followed by a dotted suffix splits exactly there. */
  lemma SplitExtAt(stem: string, e: string)
    requires NamedStem(stem)
    requires e != [] && e[0] == '.' && '.' !in e[1..] && '/' !in e
    ensures SplitExt(stem + e) == (stem, e)
  {
    var p := stem + e;
    LastIndexAppend(stem, e, '/');
    LastIndexAppend(stem, e, '.');
    assert e == [e[0]] + e[1..];
    assert LastIndex(e, '.') == 0;
    var k :| LastIndex(stem, '/') < k < |stem| && stem[k] != '.';
    assert p[k] == stem[k];
    assert p[..|stem|] == stem;
  }

  /** A path without a named final component has no extension. */
  lemma SplitExtUnnamed(p: Path)
    requires !NamedStem(p)
    ensures SplitExt(p) == (p, "")
  {
    var sep := LastIndex(p, '/');
    var dot := LastIndex(p, '.');
    assert !(exists k :: sep < k < dot && p[k] != '.');
  }

  /**
   * A final component made of leading dots and then a dot-free name, such as
   * ".wav" or "dir/..ogg", has no extension: its dots are all leading dots.
   */
  lemma SplitExtHidden(dir: Path, d: string, x: string)
    requires d != [] && forall i :: 0 <= i < |d| ==> d[i] == '.'
    requires '.' !in x && '/' !in x
    ensures SplitExt(DirPrefix(dir) + d + x) == (DirPrefix(dir) + d + x, "")
  {
    var pre := DirPrefix(dir);
    var p := pre + d + x;
    assert '/' !in d by {
      forall i | 0 <= i < |d| ensures d[i] != '/' { assert d[i] == '.'; }
    }
    assert '.' in d by { assert d[|d| - 1] == '.'; }
    LastIndexAppend(pre + d, x, '/');
    LastIndexAppend(pre, d, '/');
    LastIndexAppend(pre + d, x, '.');
    LastIndexAppend(pre, d, '.');
    assert LastIndex(d, '.') == |d| - 1;
    assert LastIndex(pre, '/') == |pre| - 1;
    var sep := LastIndex(p, '/');
    var dot := LastIndex(p, '.');
    assert sep == |pre| - 1 && dot == |pre| + |d| - 1;
    forall k | sep < k < dot
      ensures p[k] == '.'
    {
      assert p[k] == d[k - |pre|];
    }
  }

  // ---------------------------------------------------------------------------
  // str(int)

  function DigitChar(d: nat): char
    requires d < 10
  {
    ('0' as int + d) as char
  }

  predicate IsDigit(c: char)
  {
    '0' <= c <= '9'
  }

  /** Python's `str(n)` for a natural number: decimal, no leading zeros. */
  function NatToString(n: nat): (s: string)
    ensures s != [] && forall i :: 0 <= i < |s| ==> IsDigit(s[i])
    decreases n
  {
    if n < 10 then [DigitChar(n)] else NatToString(n / 10) + [DigitChar(n % 10)]
  }

  /** Value of a string of decimal digits. */
  function ParseNat(s: string): nat
    requires forall i :: 0 <= i < |s| ==> IsDigit(s[i])
    decreases |s|
  {
    if s == [] then 0
    else
      assert IsDigit(s[|s| - 1]);
      10 * ParseNat(s[..|s| - 1]) + (s[|s| - 1] as int - '0' as int)
  }

  lemma {:induction false} ParseNatToString(n: nat)
    ensures ParseNat(NatToString(n)) == n
    decreases n
  {
    if n >= 10 {
      var s := NatToString(n / 10);
      var t := s + [DigitChar(n % 10)];
      assert t[..|t| - 1] == s;
      ParseNatToString(n / 10);
    }
  }

  /** Python's `str(i)` for an integer. */
  function IntToString(i: int): string
  {
    if i < 0 then "-" + NatToString(-i) else NatToString(i)
  }

  lemma IntToStringSign(i: int)
    ensures IntToString(i) != [] && (IntToString(i)[0] == '-' <==> i < 0)
  {
    if i >= 0 {
      assert IsDigit(NatToString(i)[0]);
    }
  }

  lemma IntToStringInjective(a: int, b: int)
    requires IntToString(a) == IntToString(b)
    ensures a == b
  {
    IntToStringSign(a);
    IntToStringSign(b);
    if a < 0 {
      assert NatToString(-a) == IntToString(a)[1..];
      assert NatToString(-b) == IntToString(b)[1..];
      ParseNatToString(-a);
      ParseNatToString(-b);
    } else {
      ParseNatToString(a);
      ParseNatToString(b);
    }
  }

  // ---------------------------------------------------------------------------
  // The scratch directory and its file names

  const TempDirName: string := "pyttslib_audio"
  const TempFilePrefix: string := "pyttslib_audio_"

  /** `os.path.join(tempfile.gettempdir(), "pyttslib_audio")`. */
  function TempDirOf(tempRoot: Path): (r: Path)
    ensures DirectChild(tempRoot, r)
  {
    JoinIsDirectChild(tempRoot, TempDirName);
    Join(tempRoot, TempDirName)
  }

  /** `f"pyttslib_audio_{timestamp}{suffix}"`. */
  function TempFileName(timestamp: int, suffix: string): string
  {
    TempFilePrefix + IntToString(timestamp) + suffix
  }

  /** The path `_create_temp_file` hands out for a timestamp and suffix. */
  function TempPath(dir: Path, timestamp: int, suffix: string): Path
  {
    Join(dir, TempFileName(timestamp, suffix))
  }

  /** Different timestamps give different paths; equal ones give equal paths. */
  lemma TempPathInjective(dir: Path, a: int, b: int, suffix: string)
    ensures TempPath(dir, a, suffix) == TempPath(dir, b, suffix) <==> a == b
  {
    if TempPath(dir, a, suffix) == TempPath(dir, b, suffix) {
      var na, nb := TempFileName(a, suffix), TempFileName(b, suffix);
      JoinInjective(dir, na, nb);
      var sa, sb := IntToString(a), IntToString(b);
      assert |sa| == |sb|;
      assert sa == na[|TempFilePrefix|..|TempFilePrefix| + |sa|];
      assert sb == nb[|TempFilePrefix|..|TempFilePrefix| + |sb|];
      IntToStringInjective(a, b);
    }
  }

  /** A temp file whose suffix has no separator lies directly in the scratch directory. */
  lemma TempPathInDir(dir: Path, timestamp: int, suffix: string)
    requires '/' !in suffix
    ensures DirectChild(dir, TempPath(dir, timestamp, suffix))
  {
    var s := IntToString(timestamp);
    var name := TempFileName(timestamp, suffix);
    assert '/' !in s by {
      if timestamp < 0 {
        assert s == "-" + NatToString(-timestamp);
        assert forall i :: 0 <= i < |s| ==> s[i] == '-' || IsDigit(s[i]);
      } else {
        assert forall i :: 0 <= i < |s| ==> IsDigit(s[i]);
      }
    }
    assert '/' !in name by {
      forall i | 0 <= i < |name| ensures name[i] != '/' {
        if i < |TempFilePrefix| {
          assert name[i] == TempFilePrefix[i];
        } else if i < |TempFilePrefix| + |s| {
          assert name[i] == s[i - |TempFilePrefix|];
        } else {
          assert name[i] == suffix[i - |TempFilePrefix| - |s|];
        }
      }
    }
    JoinIsDirectChild(dir, name);
  }
}
