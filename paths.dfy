/**
 * The POSIX path and string functions the script uses: `str.endswith`,
 * `str.lower` (ASCII part), `os.path.basename`, `os.path.dirname`,
 * `os.path.join` (two arguments) and `os.path.splitext`, with `str.rfind`
 * inside them; plus `Find` and `Lines`, which split a transcript back into
 * its lines.
 */
module Paths {

  /** Index of the last `c` in `s`, or -1 when there is none (`str.rfind`). */
  function RFind(s: string, c: char): (r: int)
    ensures -1 <= r < |s|
    ensures 0 <= r ==> s[r] == c
    ensures forall i :: r < i < |s| ==> s[i] != c
  {
    if s == [] then -1
    else if s[|s| - 1] == c then |s| - 1
    else RFind(s[..|s| - 1], c)
  }

  /** The two properties of RFind's contract determine it. */
  lemma RFindUnique(s: string, c: char, m: int)
    requires m == -1 || (0 <= m < |s| && s[m] == c)
    requires forall i :: m < i < |s| ==> s[i] != c
    ensures RFind(s, c) == m
  {
  }

  predicate AllOf(s: string, c: char)
  {
    forall i :: 0 <= i < |s| ==> s[i] == c
  }

  predicate EndsWith(s: string, suffix: string)
  {
    |suffix| <= |s| && s[|s| - |suffix|..] == suffix
  }

  /** `os.path.basename`: everything after the last slash. */
  function BaseName(p: string): (r: string)
    ensures |r| <= |p| && r == p[|p| - |r|..]
    ensures '/' !in r
    ensures |r| < |p| ==> p[|p| - |r| - 1] == '/'
  {
    p[RFind(p, '/') + 1..]
  }

  /** `str.rstrip(c)`. */
  function RStrip(s: string, c: char): (r: string)
    ensures |r| <= |s| && r == s[..|r|]
    ensures r == [] || r[|r| - 1] != c
    ensures AllOf(s[|r|..], c)
  {
    if s != [] && s[|s| - 1] == c then
      var r := RStrip(s[..|s| - 1], c);
      assert s[|r|..] == s[..|s| - 1][|r|..] + [c];
      r
    else s
  }

  /**
   * `os.path.dirname`: the text up to the last slash, with trailing slashes
   * removed unless it consists of slashes only.
   */
  function DirName(p: string): (r: string)
    ensures |r| <= |p| - |BaseName(p)| && r == p[..|r|]
    ensures AllOf(p[|r|..|p| - |BaseName(p)|], '/')
    ensures AllOf(p[..|p| - |BaseName(p)|], '/') ==> r == p[..|p| - |BaseName(p)|]
    ensures !AllOf(p[..|p| - |BaseName(p)|], '/') ==> r != [] && r[|r| - 1] != '/'
  {
    var head := p[..RFind(p, '/') + 1];
    if head != [] && !AllOf(head, '/') then
      var r := RStrip(head, '/');
      assert p[|r|..|head|] == head[|r|..];
      r
    else head
  }

  /** Joining a slash-free name onto a path's directory gives a path in that same directory. */
  lemma DirNameOfJoin(p: string, n: string)
    requires n != [] && '/' !in n
    ensures DirName(JoinPath(DirName(p), n)) == DirName(p)
  {
    var d := DirName(p);
    var q := JoinPath(d, n);
    if d == [] {
      assert q == n;
      RFindUnique(q, '/', -1);
    } else if d[|d| - 1] == '/' {
      assert AllOf(p[..|p| - |BaseName(p)|], '/');
      assert q == d + n;
      forall i | |d| - 1 < i < |q| ensures q[i] != '/' {
        assert q[i] == n[i - |d|];
      }
      RFindUnique(q, '/', |d| - 1);
      assert q[..|d|] == d;
    } else {
      assert q == d + "/" + n;
      forall i | |d| < i < |q| ensures q[i] != '/' {
        assert q[i] == n[i - |d| - 1];
      }
      RFindUnique(q, '/', |d|);
      assert q[..|d| + 1] == d + "/";
      assert (d + "/")[|d| - 1] == d[|d| - 1];
      assert (d + "/")[..|d|] == d;
    }
  }

  /** `os.path.join(a, b)` for two components. */
  function JoinPath(a: string, b: string): (r: string)
    ensures |b| > 0 && b[0] == '/' ==> r == b
    ensures (|b| == 0 || b[0] != '/') ==> EndsWith(r, b)
    ensures (|b| == 0 || b[0] != '/') && (a == [] || a[|a| - 1] == '/') ==> r == a + b
    ensures (|b| == 0 || b[0] != '/') && a != [] && a[|a| - 1] != '/' ==> r == a + "/" + b
  {
    if |b| > 0 && b[0] == '/' then b
    else if a == [] || a[|a| - 1] == '/' then a + b
    else a + "/" + b
  }

  /**
   * `os.path.splitext`: the extension runs from the last dot of the final
   * path component, except that dots leading that component do not start one.
   */
  function SplitExt(p: string): (r: (string, string))
    ensures r.0 + r.1 == p
  {
    var sep := RFind(p, '/');
    var dot := RFind(p, '.');
    if sep < dot && !AllOf(p[sep + 1..dot], '.') then (p[..dot], p[dot..]) else (p, [])
  }

  /** The extension is empty or a dot followed by a tail free of dots and slashes. */
  lemma ExtShape(p: string)
    ensures Ext(p) == [] || (Ext(p)[0] == '.' && '.' !in Ext(p)[1..] && '/' !in Ext(p)[1..])
  {
    var sep := RFind(p, '/');
    var dot := RFind(p, '.');
    if Ext(p) != [] {
      var e := Ext(p);
      assert e == p[dot..];
      forall i | 0 <= i < |e| - 1 ensures e[1..][i] != '.' && e[1..][i] != '/' {
        assert e[1..][i] == p[dot + 1 + i];
      }
    }
  }

  function Stem(p: string): string { SplitExt(p).0 }

  function Ext(p: string): string { SplitExt(p).1 }

  /** Some dot of `base` is preceded by a character other than a dot. */
  predicate DottedAfterName(base: string)
  {
    exists i, j :: 0 <= j < i < |base| && base[i] == '.' && base[j] != '.'
  }

  /** A path has an extension exactly when its final component has a dot after some non-dot. */
  lemma ExtNonEmptyIff(p: string)
    ensures Ext(p) != [] <==> DottedAfterName(BaseName(p))
  {
    if Ext(p) != [] {
      ExtIsDotted(p);
    }
    if DottedAfterName(BaseName(p)) {
      DottedHasExt(p);
    }
  }

  lemma ExtIsDotted(p: string)
    requires Ext(p) != []
    ensures DottedAfterName(BaseName(p))
  {
    var sep := RFind(p, '/');
    var dot := RFind(p, '.');
    var base := p[sep + 1..];
    assert sep < dot && !AllOf(p[sep + 1..dot], '.');
    var k :| 0 <= k < dot - sep - 1 && p[sep + 1..dot][k] != '.';
    assert base[k] == p[sep + 1..dot][k];
    assert base[dot - sep - 1] == p[dot];
  }

  lemma DottedHasExt(p: string)
    requires DottedAfterName(BaseName(p))
    ensures Ext(p) != []
  {
    var sep := RFind(p, '/');
    var base := BaseName(p);
    assert base == p[sep + 1..];
    var i, j :| 0 <= j < i < |base| && base[i] == '.' && base[j] != '.';
    assert p[sep + 1 + i] == '.';
    var dot := RFind(p, '.');
    assert sep + 1 + i <= dot;
    var mid := p[sep + 1..dot];
    assert j < |mid| && mid[j] == base[j];
    assert !AllOf(mid, '.');
    assert SplitExt(p) == (p[..dot], p[dot..]);
  }

  /**
   * For a path ending in `suffix` (a dot and then a dot-free, slash-free
   * word), `splitext` yields `suffix` as the extension unless everything in
   * the final component before it is dots, in which case it yields "".
   */
  lemma {:induction false} ExtOfSuffixed(p: string, suffix: string)
    requires |suffix| >= 2 && suffix[0] == '.' && '.' !in suffix[1..] && '/' !in suffix[1..]
    requires EndsWith(p, suffix)
    ensures Ext(p) == if AllOf(BaseName(p[..|p| - |suffix|]), '.') then [] else suffix
  {
    var dot := |p| - |suffix|;
    assert p[dot..] == suffix;
    forall i | dot < i < |p| ensures p[i] != '.' && p[i] != '/' {
      assert p[i] == suffix[1..][i - dot - 1];
    }
    assert p[dot] == '.';
    RFindUnique(p, '.', dot);
    var sep := RFind(p, '/');
    assert sep < dot;
    var q := p[..dot];
    RFindUnique(q, '/', sep);
    var mid := p[sep + 1..dot];
    assert BaseName(q) == mid;
    if AllOf(mid, '.') {
      assert SplitExt(p) == (p, []);
    } else {
      assert SplitExt(p) == (p[..dot], p[dot..]);
    }
  }

  /** Index of the first `c` in `s`, or -1 (`str.find`). */
  function Find(s: string, c: char): (r: int)
    ensures -1 <= r < |s|
    ensures 0 <= r ==> s[r] == c
    ensures forall i :: 0 <= i < |s| && (r < 0 || i < r) ==> s[i] != c
  {
    if s == [] then -1
    else if s[0] == c then 0
    else var r := Find(s[1..], c); if r < 0 then -1 else r + 1
  }

  /** The lines of a text, each without its line break; a last unterminated line counts too. */
  function Lines(s: string): seq<string>
    decreases |s|
  {
    if s == [] then []
    else
      var i := Find(s, '\n');
      if i < 0 then [s] else [s[..i]] + Lines(s[i + 1..])
  }

  function LowerChar(c: char): (r: char)
    ensures 'A' <= c <= 'Z' ==> 'a' <= r <= 'z' && r as int - c as int == 32
    ensures !('A' <= c <= 'Z') ==> r == c
  {
    if 'A' <= c <= 'Z' then (c as int + 32) as char else c
  }

  /** `str.lower`, for ASCII letters. */
  function Lower(s: string): (r: string)
    ensures |r| == |s|
    ensures forall i :: 0 <= i < |s| ==> r[i] == LowerChar(s[i])
  {
    seq(|s|, i requires 0 <= i < |s| => LowerChar(s[i]))
  }
}
