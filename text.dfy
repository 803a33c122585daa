/**
 * The handful of Python `str` and `pathlib` operations the skills manager relies
 * on: `startswith`, `split(sep, maxsplit)`, `strip()`, `replace`, `title()` and
 * `Path.stem`. Strings are sequences of Unicode scalar values, which is what
 * `read_text(encoding='utf-8')` yields (a Python `str` may also hold lone surrogates).
 */
module Text {
  import opened Options

  /** Python's `str.isspace()` characters: exactly what `str.strip()` removes. */
  predicate IsSpace(c: char) {
    var n := c as int;
    (0x09 <= n <= 0x0D) || (0x1C <= n <= 0x20) || n == 0x85 || n == 0xA0 ||
    n == 0x1680 || (0x2000 <= n <= 0x200A) || n == 0x2028 || n == 0x2029 ||
    n == 0x202F || n == 0x205F || n == 0x3000
  }

  /** `s.startswith(prefix)` */
  predicate StartsWith(s: string, prefix: string)
    ensures StartsWith(s, prefix) <==> |prefix| <= |s| && s == prefix + s[|prefix|..]
  {
    |prefix| <= |s| && s[..|prefix|] == prefix
  }

  /** `pat` occurs in `s` starting at index `i`. */
  predicate OccursAt(s: string, pat: string, i: nat) {
    i + |pat| <= |s| && s[i..i + |pat|] == pat
  }

  /** `pat in s` */
  ghost predicate Contains(s: string, pat: string) {
    exists i: nat :: OccursAt(s, pat, i)
  }

  /** `s.find(pat, from)`: the leftmost occurrence of `pat` at or after `from`. */
  function Find(s: string, pat: string, from: nat): (r: Option<nat>)
    decreases |s| - from
    ensures r.Some? ==> from <= r.value && OccursAt(s, pat, r.value)
    ensures r.Some? ==> forall j: nat :: from <= j < r.value ==> !OccursAt(s, pat, j)
    ensures r.None? ==> forall j: nat :: from <= j ==> !OccursAt(s, pat, j)
  {
    if |s| < from + |pat| then None
    else if OccursAt(s, pat, from) then Some(from)
    else Find(s, pat, from + 1)
  }

  /** `sep.join(parts)` */
  function Join(parts: seq<string>, sep: string): string
    decreases |parts|
  {
    if |parts| == 0 then []
    else if |parts| == 1 then parts[0]
    else parts[0] + sep + Join(parts[1..], sep)
  }

  /** No occurrence of `pat` lies wholly inside `s[..i]` when none starts before `i` in `s`. */
  lemma NoOccurrenceInPrefix(s: string, pat: string, i: nat)
    requires |pat| > 0 && i <= |s|
    requires forall j: nat :: j < i ==> !OccursAt(s, pat, j)
    ensures !Contains(s[..i], pat)
  {
    forall j: nat | OccursAt(s[..i], pat, j)
      ensures false
    {
      assert s[..i][j..j + |pat|] == s[j..j + |pat|];
      assert OccursAt(s, pat, j);
    }
  }

  /**
   * No occurrence of `pat` starts before `i` in `s`, and one starts at `i`: then
   * no occurrence starts inside `s[..i]` even when it runs on into the one at `i`.
   */
  lemma NoOccurrenceBeforeLeftmost(s: string, pat: string, i: nat)
    requires |pat| > 0 && OccursAt(s, pat, i)
    requires forall j: nat :: j < i ==> !OccursAt(s, pat, j)
    ensures !Contains(s[..i] + pat[..|pat| - 1], pat)
  {
    var t := s[..i] + pat[..|pat| - 1];
    assert t == s[..i + |pat| - 1] by {
      assert s[i..i + |pat|][..|pat| - 1] == pat[..|pat| - 1];
    }
    forall j: nat | OccursAt(t, pat, j)
      ensures false
    {
      assert t[j..j + |pat|] == s[j..j + |pat|];
      assert OccursAt(s, pat, j);
    }
  }

  /**
   * `s.split(sep, maxsplit)` for a non-empty separator (Python raises
   * ValueError for an empty one): split at the leftmost occurrences of `sep`,
   * at most `maxsplit` times, and keep the remainder whole.
   */
  function Split(s: string, sep: string, maxsplit: nat): (parts: seq<string>)
    requires |sep| > 0
    decreases maxsplit
    ensures 1 <= |parts| <= maxsplit + 1
    ensures Join(parts, sep) == s
    ensures forall k :: 0 <= k < |parts| - 1 ==> !Contains(parts[k], sep)
    ensures forall k :: 0 <= k < |parts| - 1 ==> !Contains(parts[k] + sep[..|sep| - 1], sep)
    ensures |parts| <= maxsplit ==> !Contains(parts[|parts| - 1], sep)
  {
    if maxsplit == 0 then [s]
    else
      match Find(s, sep, 0)
      case None => [s]
      case Some(i) =>
        var rest := Split(s[i + |sep|..], sep, maxsplit - 1);
        NoOccurrenceInPrefix(s, sep, i);
        NoOccurrenceBeforeLeftmost(s, sep, i);
        assert s == s[..i] + sep + s[i + |sep|..];
        var parts := [s[..i]] + rest;
        assert forall k :: 1 <= k < |parts| ==> parts[k] == rest[k - 1];
        parts
  }

  /** The first index at or after `i` that does not hold whitespace (or `|s|`). */
  function SkipSpaces(s: string, i: nat): (lo: nat)
    requires i <= |s|
    decreases |s| - i
    ensures i <= lo <= |s|
    ensures forall k :: i <= k < lo ==> IsSpace(s[k])
    ensures lo < |s| ==> !IsSpace(s[lo])
  {
    if i < |s| && IsSpace(s[i]) then SkipSpaces(s, i + 1) else i
  }

  /** One past the last index below `j` and at or after `lo` that does not hold whitespace (or `lo`). */
  function SkipSpacesBack(s: string, lo: nat, j: nat): (hi: nat)
    requires lo <= j <= |s|
    decreases j - lo
    ensures lo <= hi <= j
    ensures forall k :: hi <= k < j ==> IsSpace(s[k])
    ensures lo < hi ==> !IsSpace(s[hi - 1])
  {
    if lo < j && IsSpace(s[j - 1]) then SkipSpacesBack(s, lo, j - 1) else j
  }

  /**
   * `r` is the slice `s[lo..hi]`, only whitespace lies outside it, and
   * neither of its ends is whitespace.
   */
  ghost predicate TrimAt(r: string, s: string, lo: nat, hi: nat) {
    lo <= hi <= |s| && r == s[lo..hi] &&
    (forall i :: 0 <= i < lo ==> IsSpace(s[i])) &&
    (forall i :: hi <= i < |s| ==> IsSpace(s[i])) &&
    (r != [] ==> !IsSpace(r[0]) && !IsSpace(r[|r| - 1]))
  }

  /** `r` is `s` with the whitespace at both of its ends removed. */
  ghost predicate IsTrimOf(r: string, s: string) {
    exists lo: nat, hi: nat :: TrimAt(r, s, lo, hi)
  }

  /** `s.strip()`: scan past leading whitespace, then back over trailing whitespace. */
  function Strip(s: string): (r: string)
    ensures IsTrimOf(r, s)
  {
    var lo := SkipSpaces(s, 0);
    var hi := SkipSpacesBack(s, lo, |s|);
    assert TrimAt(s[lo..hi], s, lo, hi);
    s[lo..hi]
  }

  lemma TrimAtUnique(s: string, r1: string, lo1: nat, hi1: nat, r2: string, lo2: nat, hi2: nat)
    requires TrimAt(r1, s, lo1, hi1) && TrimAt(r2, s, lo2, hi2)
    ensures r1 == r2
  {
    if r1 != [] {
      assert s[lo1] == r1[0] && s[hi1 - 1] == r1[|r1| - 1];
    }
    if r2 != [] {
      assert s[lo2] == r2[0] && s[hi2 - 1] == r2[|r2| - 1];
    }
    if r1 != [] && r2 != [] {
      assert lo1 == lo2 && hi1 == hi2;
    }
  }

  /** Trimming is determined by the string: `strip()` is the only trim of `s`. */
  lemma TrimIsUnique(s: string, r1: string, r2: string)
    requires IsTrimOf(r1, s) && IsTrimOf(r2, s)
    ensures r1 == r2
  {
    var lo1: nat, hi1: nat :| TrimAt(r1, s, lo1, hi1);
    var lo2: nat, hi2: nat :| TrimAt(r2, s, lo2, hi2);
    TrimAtUnique(s, r1, lo1, hi1, r2, lo2, hi2);
  }

  /** `s.strip()` is idempotent. */
  lemma StripIdempotent(s: string)
    ensures Strip(Strip(s)) == Strip(s)
  {
    var r := Strip(s);
    assert TrimAt(r, r, 0, |r|) by {
      assert r == r[0..|r|];
    }
    TrimIsUnique(r, Strip(r), r);
  }

  /** `s.replace(a, b)` for single characters `a` and `b`. */
  function Replace(s: string, from: char, to: char): (r: string)
    ensures |r| == |s|
    ensures forall i :: 0 <= i < |s| ==> r[i] == if s[i] == from then to else s[i]
  {
    if s == [] then [] else [if s[0] == from then to else s[0]] + Replace(s[1..], from, to)
  }

  /** The characters `str.title()` treats as cased (only ASCII letters are modelled). */
  predicate IsCased(c: char) {
    'a' <= c <= 'z' || 'A' <= c <= 'Z'
  }

  function ToUpper(c: char): char {
    if 'a' <= c <= 'z' then (c as int - 32) as char else c
  }

  function ToLower(c: char): char {
    if 'A' <= c <= 'Z' then (c as int + 32) as char else c
  }

  /** What `str.title()` makes of `c`, given whether the character before it is cased. */
  function TitleChar(c: char, afterCased: bool): char {
    if !IsCased(c) then c else if afterCased then ToLower(c) else ToUpper(c)
  }

  function TitleFrom(s: string, afterCased: bool): (r: string)
    ensures |r| == |s|
    ensures |s| > 0 ==> r[0] == TitleChar(s[0], afterCased)
    ensures forall i :: 0 < i < |s| ==> r[i] == TitleChar(s[i], IsCased(s[i - 1]))
  {
    if s == [] then [] else [TitleChar(s[0], afterCased)] + TitleFrom(s[1..], IsCased(s[0]))
  }

  /**
   * `s.title()`: a cased character is upper-cased when it starts a word (no
   * cased character just before it) and lower-cased otherwise.
   */
  function Title(s: string): (r: string)
    ensures |r| == |s|
    ensures forall i :: 0 <= i < |s| ==>
      r[i] == TitleChar(s[i], i > 0 && IsCased(s[i - 1]))
  {
    TitleFrom(s, false)
  }

  /** `s.rfind(c)`: the last index holding `c`, or -1. */
  function RFind(s: string, c: char): (r: int)
    ensures -1 <= r < |s|
    ensures r >= 0 ==> s[r] == c
    ensures forall j :: r < j < |s| ==> s[j] != c
  {
    if s == [] then -1
    else if s[|s| - 1] == c then |s| - 1
    else RFind(s[..|s| - 1], c)
  }

  /**
   * `Path(name).stem` for a bare file name: the name without its last
   * suffix, where a suffix starts at the last dot, which must be neither the
   * first nor the last character.
   */
  function Stem(name: string): (r: string)
    ensures r != name ==>
      && 0 < |r| < |name| - 1 && name[..|r|] == r && name[|r|] == '.'
      && forall j :: |r| < j < |name| ==> name[j] != '.'
    ensures r == name ==> forall j :: 0 < j < |name| - 1 && name[j] == '.' ==> name[|name| - 1] == '.'
  {
    var i := RFind(name, '.');
    if 0 < i < |name| - 1 then name[..i] else name
  }

  /** The stem of `<x>.md` is `x` whenever `x` is not empty. */
  lemma StemOfMarkdownName(x: string)
    requires |x| > 0
    ensures Stem(x + ".md") == x
  {
    var name := x + ".md";
    assert name[|x|] == '.' && name[|x| + 1] == 'm' && name[|x| + 2] == 'd';
    assert RFind(name, '.') == |x|;
    assert name[..|x|] == x;
  }
}
