/**
 * The parts of Python's string and `posixpath` behaviour that the modelled code relies on:
 * `isspace`/`strip`/`split`/`splitlines`, `startswith`/`endswith`/`in`, `%d` formatting,
 * ASCII case mapping, and `basename`/`dirname`/`splitext` with '/' as separator.
 */
module Strings {

  // ---------------------------------------------------------------------------
  // Characters

  /** Python 2 `unicode.isspace()`. */
  predicate IsSpace(c: char) {
    ('\t' <= c <= '\r') || ('\U{1c}' <= c <= ' ') || c == '\U{85}' || c == '\U{a0}'
    || c == '\U{1680}' || c == '\U{180e}' || ('\U{2000}' <= c <= '\U{200a}')
    || c == '\U{2028}' || c == '\U{2029}' || c == '\U{202f}' || c == '\U{205f}' || c == '\U{3000}'
  }

  /** The line boundaries recognised by `unicode.splitlines()`. */
  predicate IsLineBreak(c: char) {
    ('\n' <= c <= '\r') || ('\U{1c}' <= c <= '\U{1e}') || c == '\U{85}'
    || c == '\U{2028}' || c == '\U{2029}'
  }

  predicate IsAsciiUpper(c: char) { 'A' <= c <= 'Z' }
  predicate IsAsciiLower(c: char) { 'a' <= c <= 'z' }
  predicate IsDigit(c: char) { '0' <= c <= '9' }

  function ToLowerChar(c: char): char {
    if IsAsciiUpper(c) then (c as int + 32) as char else c
  }

  function ToUpperChar(c: char): char {
    if IsAsciiLower(c) then (c as int - 32) as char else c
  }

  /** `s.lower()` for the ASCII letters. */
  function Lower(s: string): (r: string)
    ensures |r| == |s|
    ensures forall i :: 0 <= i < |s| ==> r[i] == ToLowerChar(s[i])
  {
    if s == [] then [] else [ToLowerChar(s[0])] + Lower(s[1..])
  }

  /** `s.capitalize()` for the ASCII letters: first character upper-case, the rest lower-case. */
  function Capitalize(s: string): (r: string)
    ensures |r| == |s|
    ensures |s| > 0 ==> r[0] == ToUpperChar(s[0]) && r[1..] == Lower(s[1..])
  {
    if s == [] then [] else [ToUpperChar(s[0])] + Lower(s[1..])
  }

  // ---------------------------------------------------------------------------
  // Searching

  predicate StartsWith(s: string, prefix: string) {
    |prefix| <= |s| && s[..|prefix|] == prefix
  }

  predicate EndsWith(s: string, suffix: string) {
    |suffix| <= |s| && s[|s| - |suffix|..] == suffix
  }

  /** `sub in s`. */
  predicate Contains(s: string, sub: string) {
    exists i :: 0 <= i <= |s| && StartsWith(s[i..], sub)
  }

  /** `s.rfind(c)`: the last index of `c` in `s`, or -1. */
  function RFind(s: string, c: char): (k: int)
    ensures -1 <= k < |s|
    ensures k >= 0 ==> s[k] == c
    ensures forall j :: k < j < |s| ==> s[j] != c
  {
    if s == [] then -1
    else if s[|s| - 1] == c then |s| - 1
    else RFind(s[..|s| - 1], c)
  }

  /** `s.find(c)`: the first index of `c`, or -1. */
  function Find(s: string, c: char): (k: int)
    ensures -1 <= k < |s|
    ensures k >= 0 ==> s[k] == c
    ensures forall j :: 0 <= j < |s| && (k == -1 || j < k) ==> s[j] != c
  {
    if s == [] then -1
    else if s[0] == c then 0
    else var k := Find(s[1..], c); if k == -1 then -1 else k + 1
  }

  /** `s.replace(from, to)` for single characters. */
  function ReplaceChar(s: string, from: char, to: char): (r: string)
    ensures |r| == |s|
    ensures forall i :: 0 <= i < |s| ==> r[i] == if s[i] == from then to else s[i]
  {
    if s == [] then [] else [if s[0] == from then to else s[0]] + ReplaceChar(s[1..], from, to)
  }

  // ---------------------------------------------------------------------------
  // Stripping and splitting

  /** `s.lstrip()`. */
  function LStrip(s: string): (r: string)
    ensures |r| <= |s| && r == s[|s| - |r|..]
    ensures r == [] || !IsSpace(r[0])
    ensures forall i :: 0 <= i < |s| - |r| ==> IsSpace(s[i])
  {
    if s != [] && IsSpace(s[0]) then LStrip(s[1..]) else s
  }

  /** `s.rstrip()`. */
  function RStrip(s: string): (r: string)
    ensures |r| <= |s| && r == s[..|r|]
    ensures r == [] || !IsSpace(r[|r| - 1])
    ensures forall i :: |r| <= i < |s| ==> IsSpace(s[i])
  {
    if s != [] && IsSpace(s[|s| - 1]) then RStrip(s[..|s| - 1]) else s
  }

  /** `s.strip()`. */
  function Strip(s: string): string {
    RStrip(LStrip(s))
  }

  /** `s.strip(c)` for a single character `c`. */
  function StripChar(s: string, c: char): (r: string)
    ensures |r| <= |s|
    ensures r == [] || (r[0] != c && r[|r| - 1] != c)
  {
    if s != [] && s[0] == c then StripChar(s[1..], c)
    else if s != [] && s[|s| - 1] == c then StripChar(s[..|s| - 1], c)
    else s
  }

  /** The length of the run of non-space characters at the start of `s`. */
  function WordEnd(s: string): (k: nat)
    requires s != [] && !IsSpace(s[0])
    ensures 1 <= k <= |s|
    ensures forall i :: 0 <= i < k ==> !IsSpace(s[i])
    ensures k == |s| || IsSpace(s[k])
  {
    if |s| == 1 || IsSpace(s[1]) then 1 else 1 + WordEnd(s[1..])
  }

  predicate NoSpace(w: string) {
    forall i :: 0 <= i < |w| ==> !IsSpace(w[i])
  }

  /** `s.split()`: the maximal runs of non-space characters, in order. */
  function SplitWhitespace(s: string): (r: seq<string>)
    ensures forall i :: 0 <= i < |r| ==> r[i] != [] && NoSpace(r[i])
    decreases |s|
  {
    if s == [] then []
    else if IsSpace(s[0]) then SplitWhitespace(s[1..])
    else
      var k := WordEnd(s);
      [s[..k]] + SplitWhitespace(s[k..])
  }

  /** A word of `s` ends where it ends in `s + t` when `t` starts with white space. */
  lemma {:induction false} WordEndBeforeSpace(s: string, t: string)
    requires s != [] && !IsSpace(s[0]) && t != [] && IsSpace(t[0])
    ensures WordEnd(s + t) == WordEnd(s)
    decreases |s|
  {
    assert (s + t)[0] == s[0];
    if |s| == 1 {
      assert (s + t)[1] == t[0];
    } else {
      assert (s + t)[1] == s[1];
      if !IsSpace(s[1]) {
        assert (s + t)[1..] == s[1..] + t;
        WordEndBeforeSpace(s[1..], t);
      }
    }
  }

  /** A space between two texts separates their words: the words of the first come first, then those of the second. */
  lemma {:induction false} SplitWhitespaceJoin(s: string, t: string)
    ensures SplitWhitespace(s + " " + t) == SplitWhitespace(s) + SplitWhitespace(t)
    decreases |s|
  {
    var u := s + " " + t;
    if s == [] {
      assert u[1..] == t;
    } else if IsSpace(s[0]) {
      assert u[0] == s[0];
      assert u[1..] == s[1..] + " " + t;
      SplitWhitespaceJoin(s[1..], t);
    } else {
      assert u[0] == s[0];
      var k := WordEnd(s);
      assert u == s + (" " + t);
      WordEndBeforeSpace(s, " " + t);
      assert u[..k] == s[..k];
      assert u[k..] == s[k..] + " " + t;
      SplitWhitespaceJoin(s[k..], t);
    }
  }

  /** The number of characters before the first line boundary of `s` (|s| if none). */
  function LineEnd(s: string): (k: nat)
    ensures k <= |s|
    ensures forall i :: 0 <= i < k ==> !IsLineBreak(s[i])
    ensures k == |s| || IsLineBreak(s[k])
  {
    if s == [] || IsLineBreak(s[0]) then 0 else 1 + LineEnd(s[1..])
  }

  /** `s.splitlines()`: "\r\n" counts as one boundary and a final boundary adds no empty line. */
  function SplitLines(s: string): seq<string>
    decreases |s|
  {
    if s == [] then []
    else
      var k := LineEnd(s);
      if k == |s| then [s]
      else
        var skip := if s[k] == '\r' && k + 1 < |s| && s[k + 1] == '\n' then 2 else 1;
        [s[..k]] + SplitLines(s[k + skip..])
  }

  function Concat(parts: seq<string>): string {
    if parts == [] then [] else parts[0] + Concat(parts[1..])
  }

  /** `sep.join(parts)`. */
  function Join(sep: string, parts: seq<string>): string {
    if parts == [] then []
    else if |parts| == 1 then parts[0]
    else parts[0] + sep + Join(sep, parts[1..])
  }

  // ---------------------------------------------------------------------------
  // Numbers

  function DigitChar(d: nat): char
    requires d < 10
  {
    ('0' as int + d) as char
  }

  /** `'%d' % n` for a natural number. */
  function NatToString(n: nat): (r: string)
    ensures r != [] && forall i :: 0 <= i < |r| ==> IsDigit(r[i])
  {
    if n < 10 then [DigitChar(n)] else NatToString(n / 10) + [DigitChar(n % 10)]
  }

  /** `'%d' % i` (also `str(i)` and `unicode(i)`). */
  function IntToString(i: int): string {
    if i < 0 then "-" + NatToString(-i) else NatToString(i)
  }

  /** `n` zeros. */
  function Zeros(n: nat): (r: string)
    ensures |r| == n && forall i :: 0 <= i < n ==> r[i] == '0'
  {
    if n == 0 then [] else "0" + Zeros(n - 1)
  }

  /** `s` left-padded with '0' to at least `width` characters. */
  function ZeroPad(s: string, width: nat): (r: string)
    ensures |r| == if |s| < width then width else |s|
    ensures EndsWith(r, s)
    ensures forall i :: 0 <= i < |r| - |s| ==> r[i] == '0'
  {
    var r := (if |s| < width then Zeros(width - |s|) else []) + s;
    assert r[|r| - |s|..] == s;
    r
  }

  // ---------------------------------------------------------------------------
  // posixpath

  /** `posixpath.basename(p)`: everything after the last '/'. */
  function Basename(p: string): (r: string)
    ensures EndsWith(p, r)
    ensures forall i :: 0 <= i < |r| ==> r[i] != '/'
  {
    p[RFind(p, '/') + 1..]
  }

  predicate AllSlashes(s: string) {
    forall i :: 0 <= i < |s| ==> s[i] == '/'
  }

  /** `s.rstrip('/')`. */
  function RStripSlashes(s: string): (r: string)
    ensures |r| <= |s| && r == s[..|r|]
  {
    if s != [] && s[|s| - 1] == '/' then RStripSlashes(s[..|s| - 1]) else s
  }

  /** `posixpath.dirname(p)`: the part up to the last '/', without trailing slashes unless it is all slashes. */
  function Dirname(p: string): (r: string)
    ensures StartsWith(p, r)
    ensures |r| <= RFind(p, '/') + 1
  {
    var head := p[..RFind(p, '/') + 1];
    if head != [] && !AllSlashes(head) then RStripSlashes(head) else head
  }

  /** Whether `p[from..to]` holds a character other than '.'. */
  predicate HasNonDot(p: string, from: int, to: int)
    requires 0 <= from && to <= |p|
  {
    exists i :: from <= i < to && p[i] != '.'
  }

  /** `posixpath.splitext(p)[0]`: `p` without its extension; leading dots of the base name start no extension. */
  function StripExtension(p: string): (r: string)
    ensures StartsWith(p, r)
  {
    var sepIndex := RFind(p, '/');
    var dotIndex := RFind(p, '.');
    if dotIndex > sepIndex && HasNonDot(p, sepIndex + 1, dotIndex) then p[..dotIndex] else p
  }

  /**
   * The file name a browser upload is stored under: '\' and ':' become '/' and only the base name is kept
   * (shared by the attachment upload and the plugin upload).
   */
  function UploadBasename(name: string): (r: string)
    ensures forall i :: 0 <= i < |r| ==> r[i] != '/' && r[i] != '\\' && r[i] != ':'
  {
    Basename(ReplaceChar(ReplaceChar(name, '\\', '/'), ':', '/'))
  }

  /** A name without '/', '\' or ':' is its own upload base name. */
  lemma PlainBasename(name: string)
    requires forall i :: 0 <= i < |name| ==> name[i] !in "/\\:"
    ensures UploadBasename(name) == name
  {
    var once := ReplaceChar(name, '\\', '/');
    assert once == name;
    var twice := ReplaceChar(once, ':', '/');
    assert twice == name;
    assert RFind(name, '/') == -1;
  }
  /** The last `c` of `s + [c] + t`, when `t` has none, is the one after `s`. */
  lemma {:induction false} RFindLast(s: string, c: char, t: string)
    requires c !in t
    ensures RFind(s + [c] + t, c) == |s|
    decreases |t|
  {
    var u := s + [c] + t;
    if t != [] {
      var init := t[..|t| - 1];
      assert u[..|u| - 1] == s + [c] + init;
      assert u[|u| - 1] == t[|t| - 1];
      RFindLast(s, c, init);
    }
  }

  /** A name after a last '/', '\' or ':' separator is the upload base name of the whole path. */
  lemma BasenameAfterSeparator(dir: string, sep: char, file: string)
    requires sep in "/\\:"
    requires forall i :: 0 <= i < |file| ==> file[i] !in "/\\:"
    ensures UploadBasename(dir + [sep] + file) == file
  {
    var n := dir + [sep] + file;
    var m := ReplaceChar(ReplaceChar(n, '\\', '/'), ':', '/');
    var d := ReplaceChar(ReplaceChar(dir, '\\', '/'), ':', '/');
    forall i | 0 <= i < |m|
      ensures m[i] == (d + ['/'] + file)[i]
    {
      if i < |dir| {
        assert n[i] == dir[i];
      } else if i > |dir| {
        assert n[i] == file[i - |dir| - 1];
      }
    }
    assert m == d + ['/'] + file;
    assert '/' !in file;
    RFindLast(d, '/', file);
    assert m[|d| + 1..] == file;
  }
}
