/** Character and string helpers shared by the model.

    Characters are Unicode scalar values. The regular expression class `\d`
    is modelled by the ASCII decimal digits, `str.lower` by ASCII
    lower-casing, and `str.strip()` by Python's full `str.isspace` table. */
module Text {

  /** The characters `\d` matches in this model. */
  predicate IsDigit(c: char) {
    '0' <= c <= '9'
  }

  predicate NoDigits(s: string) {
    forall i :: 0 <= i < |s| ==> !IsDigit(s[i])
  }

  predicate AllDigits(s: string) {
    forall i :: 0 <= i < |s| ==> IsDigit(s[i])
  }

  function LowerChar(c: char): char {
    if 'A' <= c <= 'Z' then (c as int + 32) as char else c
  }

  /** `str.lower`, restricted to ASCII letters. */
  function Lower(s: string): (r: string)
    ensures |r| == |s|
  {
    seq(|s|, i requires 0 <= i < |s| => LowerChar(s[i]))
  }

  predicate EndsWith(s: string, suffix: string) {
    |suffix| <= |s| && s[|s| - |suffix|..] == suffix
  }

  /** Python's `str.isspace`: the characters of Unicode's White_Space
      property and the four ASCII separators U+001C..U+001F. */
  predicate IsSpace(c: char) {
    || ('\t' <= c <= '\r')
    || ('\U{1C}' <= c <= ' ')
    || c == '\U{85}' || c == '\U{A0}' || c == '\U{1680}'
    || ('\U{2000}' <= c <= '\U{200A}')
    || c == '\U{2028}' || c == '\U{2029}' || c == '\U{202F}' || c == '\U{205F}' || c == '\U{3000}'
  }

  /** Length of the longest all-digit prefix of `s`. */
  function DigitPrefixLen(s: string): (n: nat)
    ensures n <= |s|
    ensures AllDigits(s[..n])
    ensures n < |s| ==> !IsDigit(s[n])
  {
    if |s| == 0 || !IsDigit(s[0]) then 0 else 1 + DigitPrefixLen(s[1..])
  }

  function LeadingSpace(s: string): (n: nat)
    ensures n <= |s|
    ensures forall i :: 0 <= i < n ==> IsSpace(s[i])
    ensures n < |s| ==> !IsSpace(s[n])
  {
    if |s| == 0 || !IsSpace(s[0]) then 0 else 1 + LeadingSpace(s[1..])
  }

  function TrailingSpace(s: string): (n: nat)
    ensures n <= |s|
    ensures forall i :: |s| - n <= i < |s| ==> IsSpace(s[i])
    ensures n < |s| ==> !IsSpace(s[|s| - 1 - n])
  {
    if |s| == 0 || !IsSpace(s[|s| - 1]) then 0 else 1 + TrailingSpace(s[..|s| - 1])
  }

  /** `str.strip()` with no argument: the slice of `s` left after dropping
      whitespace at both ends. */
  function Strip(s: string): (r: string)
    ensures |r| <= |s|
    ensures r == [] || (!IsSpace(r[0]) && !IsSpace(r[|r| - 1]))
    ensures exists i, j :: 0 <= i <= j <= |s| && r == s[i..j] && SpaceOutside(s, i, j)
    ensures forall c :: c in r ==> c in s
    ensures forall x :: !IsSpace(x) ==> multiset(r)[x] == multiset(s)[x]
  {
    var (i, j) := StripRange(s);
    KeptSlice(s, i, j, IsSpace);
    StripWitness(s, i, j);
    s[i..j]
  }

  /** The bounds of the slice `Strip` keeps. */
  function StripRange(s: string): (p: (nat, nat))
    ensures p.0 <= p.1 <= |s| && SpaceOutside(s, p.0, p.1)
    ensures p.0 < p.1 ==> !IsSpace(s[p.0]) && !IsSpace(s[p.1 - 1])
  {
    var a := LeadingSpace(s);
    var b := TrailingSpace(s[a..]);
    TrailingOf(s, a, b);
    (a, |s| - b)
  }

  /** A slice with whitespace around it is a witness for `Strip`'s slice clause. */
  lemma StripWitness(s: string, i: nat, j: nat)
    requires i <= j <= |s| && SpaceOutside(s, i, j)
    ensures exists i', j' :: 0 <= i' <= j' <= |s| && s[i..j] == s[i'..j'] && SpaceOutside(s, i', j')
  {
  }

  /** Every character of `s` before `i` or from `j` on is whitespace. */
  predicate SpaceOutside(s: string, i: int, j: int) {
    forall k :: 0 <= k < |s| && (k < i || j <= k) ==> IsSpace(s[k])
  }

  /** Trailing positions of `s[a..]` are trailing positions of `s`. */
  lemma TrailingOf(s: string, a: nat, b: nat)
    requires a <= |s| && b <= |s| - a
    requires forall k :: |s[a..]| - b <= k < |s[a..]| ==> IsSpace(s[a..][k])
    requires b < |s[a..]| ==> !IsSpace(s[a..][|s[a..]| - 1 - b])
    ensures forall k :: |s| - b <= k < |s| ==> IsSpace(s[k])
    ensures a < |s| - b ==> !IsSpace(s[|s| - b - 1])
    ensures (forall k :: 0 <= k < a ==> IsSpace(s[k])) ==> SpaceOutside(s, a, |s| - b)
  {
    if a < |s| - b {
      assert s[|s| - b - 1] == s[a..][|s[a..]| - 1 - b];
    }
    forall k | |s| - b <= k < |s|
      ensures IsSpace(s[k])
    {
      assert s[k] == s[a..][k - a];
    }
  }

  /** Cutting off, at both ends, only characters satisfying `dropped` keeps
      every other character, as often as it occurs. */
  lemma KeptSlice(s: string, i: nat, j: nat, dropped: char -> bool)
    requires i <= j <= |s|
    requires forall k :: 0 <= k < i ==> dropped(s[k])
    requires forall k :: j <= k < |s| ==> dropped(s[k])
    requires i < j ==> !dropped(s[i]) && !dropped(s[j - 1])
    ensures var r := s[i..j]; r == [] || (!dropped(r[0]) && !dropped(r[|r| - 1]))
    ensures forall c :: c in s[i..j] ==> c in s
    ensures forall x :: !dropped(x) ==> multiset(s[i..j])[x] == multiset(s)[x]
  {
    assert s == s[..i] + s[i..j] + s[j..];
    forall x | !dropped(x)
      ensures multiset(s[i..j])[x] == multiset(s)[x]
    {
      assert x !in s[..i];
      assert x !in s[j..];
    }
  }

  /** `s.replace(c, '')`: every occurrence of `c` removed, the rest kept in order. */
  function RemoveAll(s: string, c: char): (r: string)
    ensures c !in r
    ensures |r| <= |s|
    ensures forall x :: x != c ==> multiset(r)[x] == multiset(s)[x]
  {
    if |s| == 0 then []
    else
      assert s == [s[0]] + s[1..];
      if s[0] == c then RemoveAll(s[1..], c) else [s[0]] + RemoveAll(s[1..], c)
  }

  /** Removing a character distributes over concatenation: what remains
      keeps its order. */
  lemma {:induction false} RemoveAllAppend(a: string, b: string, c: char)
    ensures RemoveAll(a + b, c) == RemoveAll(a, c) + RemoveAll(b, c)
  {
    if |a| == 0 {
      assert a + b == b;
    } else {
      var t := a + b;
      assert t[0] == a[0];
      assert t[1..] == a[1..] + b;
      RemoveAllAppend(a[1..], b, c);
    }
  }

  /** A single character is removed exactly when it is `c`. */
  lemma RemoveAllSingle(x: char, c: char)
    ensures RemoveAll([x], c) == if x == c then [] else [x]
  {
    assert [x][1..] == [];
  }

  lemma LowerConcat(a: string, b: string)
    ensures Lower(a + b) == Lower(a) + Lower(b)
  {
  }

  lemma LowerIdempotent(s: string)
    ensures Lower(Lower(s)) == Lower(s)
  {
  }

  /** Lower-casing keeps every character on its side of the digit test. */
  lemma LowerKeepsDigits(s: string)
    ensures NoDigits(s) ==> NoDigits(Lower(s))
    ensures AllDigits(s) ==> Lower(s) == s
  {
  }

  /** A suffix of a suffix is a suffix. */
  lemma EndsWithTrans(s: string, t: string, u: string)
    requires EndsWith(s, t) && EndsWith(t, u)
    ensures EndsWith(s, u)
  {
    assert s[|s| - |u|..] == t[|t| - |u|..];
  }

  /** Lower-casing commutes with taking a suffix. */
  lemma LowerEndsWith(s: string, t: string)
    requires EndsWith(s, t)
    ensures EndsWith(Lower(s), Lower(t))
  {
    assert Lower(s)[|s| - |t|..] == Lower(s[|s| - |t|..]);
  }
}
