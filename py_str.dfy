/** The Python string and path operations the core uses, over `seq<char>`. */
module PyStr {

  /** `s[:n]` for a non-negative `n`. */
  function Head(s: string, n: nat): (r: string)
    ensures r <= s && |r| <= n
    ensures |r| == if |s| <= n then |s| else n
  {
    if |s| <= n then s else s[..n]
  }

  /** `s.startswith(prefix)`. */
  predicate StartsWith(s: string, prefix: string) {
    |prefix| <= |s| && s[..|prefix|] == prefix
  }

  /** `s.endswith(suffix)`. */
  predicate EndsWith(s: string, suffix: string) {
    |suffix| <= |s| && s[|s| - |suffix|..] == suffix
  }

  /** `s.rfind(c)`: the index of the last `c` in `s`, or -1 when there is none. */
  function RFind(s: string, c: char): (i: int)
    ensures -1 <= i < |s|
  {
    if |s| == 0 then -1
    else if s[|s| - 1] == c then |s| - 1
    else RFind(s[..|s| - 1], c)
  }

  /** `s.rfind(c)` finds the last `c`: a non-negative result indexes a `c`, and no `c` follows. */
  lemma {:induction false} RFindIsLast(s: string, c: char)
    ensures var i := RFind(s, c);
      && (0 <= i ==> s[i] == c)
      && forall j :: i < j < |s| ==> s[j] != c
  {
    if |s| > 0 && s[|s| - 1] != c {
      RFindIsLast(s[..|s| - 1], c);
    }
  }

  /** `os.path.basename(p)`, and `Path(p).name` for the normalised paths a directory walk yields:
      everything after the last '/'. */
  function Basename(p: string): string {
    p[RFind(p, '/') + 1..]
  }

  /** The base name is the part of the path after its last '/': it ends the path and holds no
      '/', and it is the whole path or is preceded by a '/'. */
  lemma BasenameIsLastComponent(p: string)
    ensures var name := Basename(p);
      && EndsWith(p, name) && '/' !in name
      && (|name| < |p| ==> p[|p| - |name| - 1] == '/')
  {
    RFindIsLast(p, '/');
    var i := RFind(p, '/');
    var name := p[i + 1..];
    assert |name| == |p| - i - 1;
    assert p[|p| - |name|..] == name;
    assert forall k :: 0 <= k < |name| ==> name[k] == p[i + 1 + k];
  }

  /** `PurePath.suffix` applied to a file name: from the last '.' on, provided that dot is neither
      the first nor the last character of the name; otherwise the empty string. */
  function Suffix(name: string): string {
    var i := RFind(name, '.');
    if 0 < i < |name| - 1 then name[i..] else ""
  }

  /** A non-empty suffix is a proper ending of the name that starts with its only '.'. */
  lemma SuffixIsEnding(name: string)
    ensures var s := Suffix(name);
      s == [] || (EndsWith(name, s) && s[0] == '.' && 2 <= |s| < |name| && '.' !in s[1..])
  {
    RFindIsLast(name, '.');
  }

  /** Lower-casing of one character (ASCII letters only). */
  function LowerChar(c: char): char {
    if 'A' <= c <= 'Z' then (c as int + 32) as char else c
  }

  /** `s.lower()`, restricted to ASCII letters. */
  function Lower(s: string): (r: string)
    ensures |r| == |s|
  {
    seq(|s|, k requires 0 <= k < |s| => LowerChar(s[k]))
  }

  /** The characters for which Python's `str.isspace()` holds, which `str.strip()` removes. */
  predicate IsSpace(c: char) {
    '\t' <= c <= '\r' || '\U{1c}' <= c <= '\U{1f}' || c == ' ' || c == '\U{85}' || c == '\U{a0}'
    || c == '\U{1680}' || '\U{2000}' <= c <= '\U{200a}' || c == '\U{2028}' || c == '\U{2029}'
    || c == '\U{202f}' || c == '\U{205f}' || c == '\U{3000}'
  }

  /** How many whitespace characters `s` starts with. */
  function LeadingSpace(s: string): (n: nat)
    ensures n <= |s|
    ensures forall k :: 0 <= k < n ==> IsSpace(s[k])
    ensures n == |s| || !IsSpace(s[n])
  {
    if |s| > 0 && IsSpace(s[0]) then 1 + LeadingSpace(s[1..]) else 0
  }

  /** How many whitespace characters `s` ends with. */
  function TrailingSpace(s: string): (n: nat)
    ensures n <= |s|
    ensures forall k :: |s| - n <= k < |s| ==> IsSpace(s[k])
    ensures n == |s| || !IsSpace(s[|s| - n - 1])
  {
    if |s| > 0 && IsSpace(s[|s| - 1]) then 1 + TrailingSpace(s[..|s| - 1]) else 0
  }

  /** `s.strip()`: `s` without its leading and trailing whitespace. */
  function Strip(s: string): string {
    var lead := LeadingSpace(s);
    s[lead..|s| - TrailingSpace(s[lead..])]
  }

  /** `s.strip()` keeps one contiguous slice `s[i..j]` of `s`; every character outside it is
      whitespace, and the slice is empty or neither starts nor ends with whitespace. */
  lemma StripShape(s: string)
    ensures exists i, j ::
              && 0 <= i <= j <= |s| && Strip(s) == s[i..j]
              && (forall k :: 0 <= k < i ==> IsSpace(s[k]))
              && (forall k :: j <= k < |s| ==> IsSpace(s[k]))
              && (i < j ==> !IsSpace(s[i]) && !IsSpace(s[j - 1]))
  {
    var i := LeadingSpace(s);
    var t := TrailingSpace(s[i..]);
    var j := |s| - t;
    assert Strip(s) == s[i..j];
    assert forall k :: j <= k < |s| ==> IsSpace(s[k]) by {
      forall k | j <= k < |s| ensures IsSpace(s[k]) {
        assert s[k] == s[i..][k - i];
      }
    }
    if i < j {
      assert s[j - 1] == s[i..][|s[i..]| - t - 1];
    }
  }

  /** Stripping twice is stripping once. */
  lemma StripIdempotent(s: string)
    ensures Strip(Strip(s)) == Strip(s)
  {
    var r := Strip(s);
    assert LeadingSpace(r) == 0;
    assert TrailingSpace(r) == 0;
  }
}
