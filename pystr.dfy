/**
 * The Python `str` operations the application relies on, over ASCII
 * character classes: whitespace as `str.isspace` and `\s` see it, word
 * characters as `\w` sees them, `lower`, `strip`, `split`, `split(',')`,
 * substring search, `replace(old, '', 1)`, decimal rendering and
 * `os.path.join` on POSIX.
 */
module PyStr {

  /** ASCII whitespace as `str.isspace`, `\s`, `split()` and `strip()` treat it. */
  predicate IsSpace(c: char) {
    c == ' ' || (9 <= c as int <= 13) || (28 <= c as int <= 31)
  }

  /** The regular-expression class `\w` on ASCII: letters, digits and underscore. */
  predicate IsWordChar(c: char) {
    ('a' <= c <= 'z') || ('A' <= c <= 'Z') || ('0' <= c <= '9') || c == '_'
  }

  /** `str.lower` on one character. */
  function LowerChar(c: char): char {
    if 'A' <= c <= 'Z' then (c as int + 32) as char else c
  }

  /** `str.lower`. */
  function Lower(s: string): string {
    seq(|s|, i requires 0 <= i < |s| => LowerChar(s[i]))
  }

  /** A capitalised word whose other letters are not upper case lowers to `key`, its first letter lowered. */
  lemma LowerCapitalized(name: string, key: string)
    requires |name| == |key| && |name| > 0
    requires 'A' <= name[0] <= 'Z' && key[0] == LowerChar(name[0])
    requires forall i :: 1 <= i < |name| ==> !('A' <= name[i] <= 'Z') && key[i] == name[i]
    ensures Lower(name) == key
  {
  }

  /** The first `n` elements, or all of them (Python's `s[:n]`). */
  function Take<T>(s: seq<T>, n: nat): seq<T> {
    if |s| <= n then s else s[..n]
  }

  /** `str.lstrip()`: drops leading whitespace. */
  function StripLeft(s: string): (r: string)
    ensures |r| <= |s| && r == s[|s| - |r|..]
    ensures r == [] || !IsSpace(r[0])
    ensures forall i :: 0 <= i < |s| - |r| ==> IsSpace(s[i])
  {
    if s != [] && IsSpace(s[0]) then StripLeft(s[1..]) else s
  }

  /** `str.rstrip()`: drops trailing whitespace. */
  function StripRight(s: string): (r: string)
    ensures |r| <= |s| && r == s[..|r|]
    ensures r == [] || !IsSpace(r[|r| - 1])
    ensures forall i :: |r| <= i < |s| ==> IsSpace(s[i])
  {
    if s != [] && IsSpace(s[|s| - 1]) then StripRight(s[..|s| - 1]) else s
  }

  /** `str.strip()`. */
  function Strip(s: string): (r: string)
    ensures r == [] || (!IsSpace(r[0]) && !IsSpace(r[|r| - 1]))
  {
    StripRight(StripLeft(s))
  }

  /** Longest prefix of `s` holding no whitespace. */
  function WordPrefix(s: string): (w: string)
    ensures |w| <= |s| && w == s[..|w|]
    ensures forall i :: 0 <= i < |w| ==> !IsSpace(w[i])
    ensures |w| < |s| ==> IsSpace(s[|w|])
  {
    if s == [] || IsSpace(s[0]) then [] else [s[0]] + WordPrefix(s[1..])
  }

  /** `str.split()` with no separator: the maximal runs of non-whitespace characters, in order. */
  function Split(s: string): (words: seq<string>)
    ensures forall k :: 0 <= k < |words| ==> words[k] != []
    ensures |words| <= |s|
    decreases |s|
  {
    var t := StripLeft(s);
    if t == [] then []
    else
      var w := WordPrefix(t);
      [w] + Split(t[|w|..])
  }

  /** `str.split()` finds no word exactly when every character is whitespace. */
  lemma SplitEmptyIff(s: string)
    ensures Split(s) == [] <==> forall i :: 0 <= i < |s| ==> IsSpace(s[i])
  {
    var t := StripLeft(s);
    if t != [] {
      assert !IsSpace(s[|s| - |t|]);
    }
  }

  /** `str.split(sep)` for a one-character separator: always at least one (possibly empty) part. */
  function SplitOn(s: string, sep: char): (parts: seq<string>)
    ensures 1 <= |parts| <= |s| + 1
  {
    if s == [] then [[]]
    else
      var rest := SplitOn(s[1..], sep);
      if s[0] == sep then [[]] + rest else [[s[0]] + rest[0]] + rest[1..]
  }

  /** `needle` occurs in `hay` starting at index `i`. */
  predicate OccursAt(hay: string, needle: string, i: nat) {
    i + |needle| <= |hay| && hay[i..i + |needle|] == needle
  }

  /** Python's `needle in hay` on strings. */
  predicate Contains(hay: string, needle: string) {
    exists i :: 0 <= i <= |hay| && OccursAt(hay, needle, i)
  }

  lemma ContainsTransitive(a: string, b: string, c: string)
    requires Contains(a, b) && Contains(b, c)
    ensures Contains(a, c)
  {
    var i :| 0 <= i <= |a| && OccursAt(a, b, i);
    var j :| 0 <= j <= |b| && OccursAt(b, c, j);
    forall k | 0 <= k < |c|
      ensures a[i + j..i + j + |c|][k] == c[k]
    {
      assert c[k] == b[j + k] == a[i + j + k];
    }
    assert a[i + j..i + j + |c|] == c;
    assert OccursAt(a, c, i + j);
  }

  lemma ContainsLower(s: string, t: string)
    requires Contains(s, t)
    ensures Contains(Lower(s), Lower(t))
  {
    var i :| 0 <= i <= |s| && OccursAt(s, t, i);
    assert Lower(s)[i..i + |t|] == Lower(t);
    assert OccursAt(Lower(s), Lower(t), i);
  }

  lemma ContainsStrip(s: string)
    ensures Contains(s, Strip(s))
  {
    var l := StripLeft(s);
    var r := StripRight(l);
    assert s[|s| - |l|..|s| - |l| + |r|] == r;
    assert OccursAt(s, r, |s| - |l|);
  }

  /** Every part `str.split(sep)` returns is a substring of the input; the first is a prefix. */
  lemma {:induction false} SplitOnParts(s: string, sep: char)
    ensures var parts := SplitOn(s, sep);
      && |parts[0]| <= |s| && parts[0] == s[..|parts[0]|]
      && forall k :: 0 <= k < |parts| ==> Contains(s, parts[k])
  {
    var parts := SplitOn(s, sep);
    if s == [] {
      assert OccursAt(s, parts[0], 0);
    } else {
      var rest := SplitOn(s[1..], sep);
      SplitOnParts(s[1..], sep);
      forall k | 1 <= k < |rest|
        ensures Contains(s, rest[k])
      {
        var i :| 0 <= i <= |s[1..]| && OccursAt(s[1..], rest[k], i);
        assert s[i + 1..i + 1 + |rest[k]|] == s[1..][i..i + |rest[k]|];
        assert OccursAt(s, rest[k], i + 1);
      }
      if s[0] == sep {
        assert OccursAt(s, parts[0], 0);
        forall k | 1 <= k < |parts|
          ensures Contains(s, parts[k])
        {
          assert parts[k] == rest[k - 1];
          if k - 1 == 0 {
            assert s[1..1 + |rest[0]|] == rest[0];
            assert OccursAt(s, rest[0], 1);
          }
        }
      } else {
        assert parts[0] == [s[0]] + rest[0];
        assert parts[0] == s[..|parts[0]|];
        assert OccursAt(s, parts[0], 0);
        forall k | 1 <= k < |parts|
          ensures Contains(s, parts[k])
        {
          assert parts[k] == rest[k];
        }
      }
    }
  }

  /** Python's `s.replace(pat, '', 1)`: removes the first occurrence of `pat`, if any. */
  function RemoveFirst(s: string, pat: string): string
    decreases |s|
  {
    if pat == [] then s
    else if |pat| <= |s| && s[..|pat|] == pat then s[|pat|..]
    else if s == [] then []
    else [s[0]] + RemoveFirst(s[1..], pat)
  }

  /** `a + sep + b + sep + ...`: Python's `sep.join(parts)`. */
  function Join(parts: seq<string>, sep: string): string {
    if |parts| == 0 then []
    else if |parts| == 1 then parts[0]
    else parts[0] + sep + Join(parts[1..], sep)
  }

  function DigitChar(d: nat): char
    requires d < 10
  {
    ('0' as int + d) as char
  }

  function DigitValue(c: char): nat {
    if '0' <= c <= '9' then c as int - '0' as int else 0
  }

  /** Decimal rendering of a natural number, as `f"{n}"` produces it. */
  function NatToString(n: nat): (s: string)
    ensures s != []
  {
    if n < 10 then [DigitChar(n)] else NatToString(n / 10) + [DigitChar(n % 10)]
  }

  /** Reading a decimal numeral back, most significant digit first. */
  function ParseNat(s: string): nat {
    if s == [] then 0 else ParseNat(s[..|s| - 1]) * 10 + DigitValue(s[|s| - 1])
  }

  /** Decimal rendering loses nothing: reading it back gives the number. */
  lemma {:induction false} ParseNatToString(n: nat)
    ensures ParseNat(NatToString(n)) == n
  {
    var s := NatToString(n);
    if n >= 10 {
      ParseNatToString(n / 10);
      assert s[..|s| - 1] == NatToString(n / 10);
    }
  }

  /** `os.path.join(a, b)` on POSIX. */
  function PathJoin(a: string, b: string): string {
    if |b| > 0 && b[0] == '/' then b
    else if a == [] || a[|a| - 1] == '/' then a + b
    else a + "/" + b
  }
}
