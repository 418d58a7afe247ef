/** The natural sort key of modules/config.py.

    `re.split(r'(\d+)', s)` cuts a string into text runs and digit runs,
    t0, d1, t1, ..., dk, tk, keeping the digit runs because the pattern has
    a capture group. Text runs are lower-cased and digit runs become their
    decimal value, so "img2" sorts before "img10". */
module NaturalKey {
  import opened Text
  import opened Results

  /** One element of a key: a lower-cased text run or the value of a digit run. */
  datatype Seg = Str(text: string) | Num(value: nat)

  function Concat(parts: seq<string>): string {
    if |parts| == 0 then [] else parts[0] + Concat(parts[1..])
  }

  /** The shape of `re.split(r'(\d+)', s)`: an odd number of segments, text
      runs at even positions and non-empty digit runs at odd positions, and
      no empty text run between two digit runs (digit runs are maximal). */
  predicate WellFormed(parts: seq<string>) {
    && |parts| % 2 == 1
    && (forall i :: 0 <= i < |parts| ==>
          && (i % 2 == 0 ==> NoDigits(parts[i]))
          && (i % 2 == 1 ==> parts[i] != [] && AllDigits(parts[i]))
          && (0 < i < |parts| - 1 ==> parts[i] != []))
  }

  /** `re.split(r'(\d+)', s)`. */
  function Split(s: string): (parts: seq<string>)
    ensures |parts| % 2 == 1
    decreases |s|
  {
    if |s| == 0 then [""]
    else if IsDigit(s[0]) then
      var n := DigitPrefixLen(s);
      ["", s[..n]] + Split(s[n..])
    else
      var rest := Split(s[1..]);
      [[s[0]] + rest[0]] + rest[1..]
  }

  function DigitValue(c: char): nat {
    if IsDigit(c) then c as int - '0' as int else 0
  }

  /** `int(d)` for a string of decimal digits. */
  function DecimalValue(d: string): nat {
    if |d| == 0 then 0 else 10 * DecimalValue(d[..|d| - 1]) + DigitValue(d[|d| - 1])
  }

  /** Converts segments by position: text runs lower-cased, digit runs to numbers. */
  function KeyOf(parts: seq<string>): seq<Seg> {
    seq(|parts|, i requires 0 <= i < |parts| =>
      if i % 2 == 0 then Str(Lower(parts[i])) else Num(DecimalValue(parts[i])))
  }

  /** `natural_sort_key(s)`, with each segment converted by its position. */
  function Key(s: string): (r: seq<Seg>)
    ensures |r| % 2 == 1
    ensures forall i :: 0 <= i < |r| ==> (r[i].Str? <==> i % 2 == 0)
  {
    KeyOf(Split(s))
  }

  /** Number of maximal digit runs of `s`, counted at the position where each run ends. */
  function DigitRuns(s: string): nat {
    if |s| == 0 then 0
    else (if IsDigit(s[0]) && (|s| == 1 || !IsDigit(s[1])) then 1 else 0) + DigitRuns(s[1..])
  }

  // ---------------------------------------------------------------------------
  // Split: soundness (shape and round trip) and uniqueness

  lemma ConcatAppend(a: seq<string>, b: seq<string>)
    ensures Concat(a + b) == Concat(a) + Concat(b)
  {
    if |a| > 0 {
      assert (a + b)[0] == a[0];
      assert (a + b)[1..] == a[1..] + b;
      ConcatAppend(a[1..], b);
    } else {
      assert a + b == b;
    }
  }

  lemma Concat3(x: string, y: string, z: string)
    ensures Concat([x, y, z]) == x + y + z
  {
    assert [x, y, z][1..] == [y, z];
    assert [y, z][1..] == [z];
    assert [z][1..] == [];
    assert Concat([z]) == z;
    assert Concat([y, z]) == y + z;
  }

  lemma WellFormedDigitCons(d: string, rest: seq<string>)
    requires d != [] && AllDigits(d)
    requires WellFormed(rest)
    requires |rest| == 1 || rest[0] != []
    ensures WellFormed(["", d] + rest)
  {
    var parts := ["", d] + rest;
    forall i | 0 <= i < |parts|
      ensures && (i % 2 == 0 ==> NoDigits(parts[i]))
              && (i % 2 == 1 ==> parts[i] != [] && AllDigits(parts[i]))
              && (0 < i < |parts| - 1 ==> parts[i] != [])
    {
      if i >= 2 {
        assert parts[i] == rest[i - 2];
      }
    }
  }

  lemma WellFormedTextCons(c: char, rest: seq<string>)
    requires !IsDigit(c)
    requires WellFormed(rest)
    ensures WellFormed([[c] + rest[0]] + rest[1..])
  {
    var parts := [[c] + rest[0]] + rest[1..];
    forall i | 0 <= i < |parts|
      ensures && (i % 2 == 0 ==> NoDigits(parts[i]))
              && (i % 2 == 1 ==> parts[i] != [] && AllDigits(parts[i]))
              && (0 < i < |parts| - 1 ==> parts[i] != [])
    {
      if i >= 1 {
        assert parts[i] == rest[i];
      } else {
        assert NoDigits(rest[0]);
      }
    }
  }

  /** The segments of `re.split` are well formed. */
  lemma {:induction false} SplitWellFormed(s: string)
    ensures WellFormed(Split(s))
    decreases |s|
  {
    if |s| == 0 {
    } else if IsDigit(s[0]) {
      var n := DigitPrefixLen(s);
      var rest := Split(s[n..]);
      SplitWellFormed(s[n..]);
      assert Split(s) == ["", s[..n]] + rest;
      if n == |s| {
        assert s[n..] == [];
      } else {
        assert s[n..][0] == s[n];
      }
      WellFormedDigitCons(s[..n], rest);
    } else {
      var rest := Split(s[1..]);
      SplitWellFormed(s[1..]);
      assert Split(s) == [[s[0]] + rest[0]] + rest[1..];
      WellFormedTextCons(s[0], rest);
    }
  }

  lemma ConcatCons(parts: seq<string>)
    requires |parts| > 0
    ensures Concat(parts) == parts[0] + Concat(parts[1..])
  {
  }

  lemma ConcatDigitCons(d: string, rest: seq<string>)
    ensures Concat(["", d] + rest) == d + Concat(rest)
  {
    var parts := ["", d] + rest;
    ConcatCons(parts);
    assert parts[1..] == [d] + rest;
    ConcatCons(parts[1..]);
    assert parts[1..][1..] == rest;
  }

  lemma ConcatTextCons(c: char, x: string, tail: seq<string>)
    ensures Concat([[c] + x] + tail) == [c] + Concat([x] + tail)
  {
    var parts := [[c] + x] + tail;
    ConcatCons(parts);
    assert parts[0] == [c] + x && parts[1..] == tail;
    var rest := [x] + tail;
    ConcatCons(rest);
    assert rest[0] == x && rest[1..] == tail;
    var y := Concat(tail);
    assert ([c] + x) + y == [c] + (x + y);
  }

  /** Joining the segments of `re.split` gives back the input exactly. */
  lemma {:induction false} SplitConcat(s: string)
    ensures Concat(Split(s)) == s
    decreases |s|
  {
    if |s| == 0 {
      assert Concat([""]) == "" + Concat([]);
    } else if IsDigit(s[0]) {
      var n := DigitPrefixLen(s);
      var d, t := s[..n], s[n..];
      SplitConcat(t);
      assert Split(s) == ["", d] + Split(t);
      ConcatDigitCons(d, Split(t));
      assert s == d + t;
    } else {
      var t := s[1..];
      var rest := Split(t);
      SplitConcat(t);
      assert Split(s) == [[s[0]] + rest[0]] + rest[1..];
      ConcatTextCons(s[0], rest[0], rest[1..]);
      assert rest == [rest[0]] + rest[1..];
      assert s == [s[0]] + t;
    }
  }

  /** The segments of `re.split` are well formed and joining them gives back
      the input exactly, before any lower-casing or number conversion. */
  lemma SplitRoundTrip(s: string)
    ensures WellFormed(Split(s))
    ensures Concat(Split(s)) == s
  {
    SplitWellFormed(s);
    SplitConcat(s);
  }

  lemma {:induction false} DigitPrefixOf(d: string, t: string)
    requires AllDigits(d)
    requires t == [] || !IsDigit(t[0])
    ensures DigitPrefixLen(d + t) == |d|
    decreases |d|
  {
    var s := d + t;
    if |d| > 0 {
      assert s[0] == d[0] && IsDigit(d[0]);
      assert s[1..] == d[1..] + t;
      assert AllDigits(d[1..]) by {
        forall i | 0 <= i < |d[1..]| ensures IsDigit(d[1..][i]) {
          assert d[1..][i] == d[i + 1];
        }
      }
      DigitPrefixOf(d[1..], t);
      assert DigitPrefixLen(s) == 1 + DigitPrefixLen(s[1..]);
    } else {
      assert s == t;
    }
  }

  lemma WellFormedDropChar(parts: seq<string>)
    requires WellFormed(parts) && parts[0] != []
    ensures WellFormed([parts[0][1..]] + parts[1..])
  {
    var p' := [parts[0][1..]] + parts[1..];
    forall i | 0 <= i < |p'|
      ensures && (i % 2 == 0 ==> NoDigits(p'[i]))
              && (i % 2 == 1 ==> p'[i] != [] && AllDigits(p'[i]))
              && (0 < i < |p'| - 1 ==> p'[i] != [])
    {
      if i > 0 {
        assert p'[i] == parts[i];
      } else {
        assert NoDigits(parts[0]);
      }
    }
  }

  lemma WellFormedDropTwo(parts: seq<string>)
    requires WellFormed(parts) && |parts| > 1
    ensures WellFormed(parts[2..])
  {
    var tail := parts[2..];
    forall i | 0 <= i < |tail|
      ensures && (i % 2 == 0 ==> NoDigits(tail[i]))
              && (i % 2 == 1 ==> tail[i] != [] && AllDigits(tail[i]))
              && (0 < i < |tail| - 1 ==> tail[i] != [])
    {
      assert tail[i] == parts[i + 2];
    }
  }

  /** The text that follows a digit run in a well-formed list does not start with a digit. */
  lemma TailStartsWithText(parts: seq<string>)
    requires WellFormed(parts) && |parts| > 1
    ensures var t := Concat(parts[2..]); t == [] || !IsDigit(t[0])
  {
    var tail := parts[2..];
    assert tail[0] == parts[2];
    assert NoDigits(tail[0]);
    if |tail| == 1 {
      assert tail[1..] == [];
      assert Concat(tail) == tail[0] + Concat(tail[1..]);
    } else {
      assert parts[2] != [];
      assert Concat(tail) == tail[0] + Concat(tail[1..]);
      assert Concat(tail)[0] == tail[0][0];
    }
  }

  /** One step of `re.split` on a text character. */
  lemma SplitTextStep(c: char, r: string)
    requires !IsDigit(c)
    ensures Split([c] + r) == [[c] + Split(r)[0]] + Split(r)[1..]
  {
    var s := [c] + r;
    assert s[0] == c && s[1..] == r;
  }

  /** One step of `re.split` on a maximal digit run. */
  lemma SplitDigitStep(d: string, t: string)
    requires d != [] && AllDigits(d)
    requires t == [] || !IsDigit(t[0])
    ensures Split(d + t) == ["", d] + Split(t)
  {
    var s := d + t;
    DigitPrefixOf(d, t);
    assert s[0] == d[0];
    assert s[..|d|] == d && s[|d|..] == t;
  }

  /** `re.split` is the only well-formed cut: any well-formed segment list is
      the split of its own concatenation. */
  lemma {:induction false} SplitUnique(parts: seq<string>)
    requires WellFormed(parts)
    ensures Split(Concat(parts)) == parts
    decreases |Concat(parts)|
  {
    var s := Concat(parts);
    ConcatCons(parts);
    if parts[0] != [] {
      var c := parts[0][0];
      var p' := [parts[0][1..]] + parts[1..];
      WellFormedDropChar(parts);
      ConcatCons(p');
      assert p'[0] == parts[0][1..] && p'[1..] == parts[1..];
      assert parts[0] == [c] + parts[0][1..];
      assert s == [c] + Concat(p');
      assert !IsDigit(c) by { assert NoDigits(parts[0]); }
      SplitUnique(p');
      SplitTextStep(c, Concat(p'));
      assert parts == [parts[0]] + parts[1..];
    } else if |parts| == 1 {
      assert s == [];
    } else {
      var d := parts[1];
      var tail := parts[2..];
      WellFormedDropTwo(parts);
      TailStartsWithText(parts);
      var t := Concat(tail);
      assert parts[1..] == [d] + tail;
      ConcatCons(parts[1..]);
      assert parts[1..][1..] == tail;
      assert s == d + t;
      SplitDigitStep(d, t);
      SplitUnique(tail);
      assert parts == ["", d] + tail;
    }
  }

  // ---------------------------------------------------------------------------
  // Properties of the key

  lemma DigitRunsSkip(s: string, n: nat)
    requires 1 <= n <= |s|
    requires AllDigits(s[..n])
    requires n == |s| || !IsDigit(s[n])
    ensures DigitRuns(s) == 1 + DigitRuns(s[n..])
  {
    assert IsDigit(s[..n][0]);
    if n > 1 {
      assert IsDigit(s[..n][1]);
      assert s[1..][..n - 1] == s[..n][1..];
      DigitRunsSkip(s[1..], n - 1);
      assert s[1..][n - 1..] == s[n..];
    }
  }

  /** The split has 2k+1 segments, where k counts the maximal digit runs. */
  lemma {:induction false} SplitLength(s: string)
    ensures |Split(s)| == 2 * DigitRuns(s) + 1
    decreases |s|
  {
    if |s| > 0 {
      if IsDigit(s[0]) {
        var n := DigitPrefixLen(s);
        SplitLength(s[n..]);
        DigitRunsSkip(s, n);
      } else {
        SplitLength(s[1..]);
      }
    }
  }

  /** The key has odd length 2k+1 for k maximal digit runs; even positions
      hold lower-cased digit-free text (possibly empty), odd positions hold
      numbers; so two keys never hold a text and a number at the same
      position, and comparing them never mixes types. */
  lemma KeyShape(s: string)
    ensures |Key(s)| == 2 * DigitRuns(s) + 1
    ensures forall i :: 0 <= i < |Key(s)| ==> (Key(s)[i].Str? <==> i % 2 == 0)
    ensures forall i :: 0 <= i < |Key(s)| && Key(s)[i].Str? ==>
              NoDigits(Key(s)[i].text) && Lower(Key(s)[i].text) == Key(s)[i].text
    ensures forall i :: 0 <= i < |Key(s)| && Key(s)[i].Num? ==>
              Key(s)[i].value == DecimalValue(Split(s)[i])
  {
    SplitLength(s);
    SplitRoundTrip(s);
    var parts := Split(s);
    forall i | 0 <= i < |parts| && i % 2 == 0
      ensures NoDigits(Key(s)[i].text) && Lower(Key(s)[i].text) == Key(s)[i].text
    {
      LowerKeepsDigits(parts[i]);
      LowerIdempotent(parts[i]);
    }
  }

  function MapLower(parts: seq<string>): (r: seq<string>)
    ensures |r| == |parts|
    ensures forall i :: 0 <= i < |parts| ==> r[i] == Lower(parts[i])
  {
    if |parts| == 0 then [] else [Lower(parts[0])] + MapLower(parts[1..])
  }

  lemma ConcatMapLower(parts: seq<string>)
    ensures Concat(MapLower(parts)) == Lower(Concat(parts))
  {
    if |parts| > 0 {
      ConcatMapLower(parts[1..]);
      LowerConcat(parts[0], Concat(parts[1..]));
      assert MapLower(parts)[1..] == MapLower(parts[1..]);
    }
  }

  /** ASCII case-insensitivity: a string and its lower-cased form have the same key. */
  lemma {:induction false} KeyIgnoresCase(s: string)
    ensures Key(Lower(s)) == Key(s)
  {
    var parts := Split(s);
    SplitRoundTrip(s);
    var lowered := MapLower(parts);
    assert WellFormed(lowered) by {
      forall i | 0 <= i < |lowered|
        ensures && (i % 2 == 0 ==> NoDigits(lowered[i]))
                && (i % 2 == 1 ==> lowered[i] != [] && AllDigits(lowered[i]))
                && (0 < i < |lowered| - 1 ==> lowered[i] != [])
      {
        LowerKeepsDigits(parts[i]);
      }
    }
    ConcatMapLower(parts);
    SplitUnique(lowered);
    assert Split(Lower(s)) == lowered;
    forall i | 0 <= i < |parts|
      ensures KeyOf(lowered)[i] == KeyOf(parts)[i]
    {
      LowerIdempotent(parts[i]);
      LowerKeepsDigits(parts[i]);
    }
  }

  /** A string without digits has the one-element key [lower(s)]. */
  lemma {:induction false} KeyWithoutDigits(s: string)
    requires NoDigits(s)
    ensures Key(s) == [Str(Lower(s))]
  {
    assert Concat([s]) == s by {
      assert Concat([s]) == s + Concat([]);
    }
    assert WellFormed([s]);
    SplitUnique([s]);
    assert Split(s) == [s];
    assert KeyOf([s])[0] == Str(Lower(s));
  }

  lemma {:induction false} LeadingZeroValue(d: string)
    ensures DecimalValue("0" + d) == DecimalValue(d)
    decreases |d|
  {
    if |d| > 0 {
      assert ("0" + d)[..|"0" + d| - 1] == "0" + d[..|d| - 1];
      LeadingZeroValue(d[..|d| - 1]);
    } else {
      assert DecimalValue("0") == 10 * DecimalValue("") + 0;
    }
  }

  lemma WellFormedPadded(parts: seq<string>, i: nat)
    requires WellFormed(parts)
    requires i < |parts| && i % 2 == 1
    ensures WellFormed(parts[i := "0" + parts[i]])
  {
    var padded := parts[i := "0" + parts[i]];
    forall j | 0 <= j < |padded|
      ensures && (j % 2 == 0 ==> NoDigits(padded[j]))
              && (j % 2 == 1 ==> padded[j] != [] && AllDigits(padded[j]))
              && (0 < j < |padded| - 1 ==> padded[j] != [])
    {
      if j == i {
        var d := parts[i];
        assert AllDigits(d);
        forall k | 0 <= k < |padded[j]| ensures IsDigit(padded[j][k]) {
          if k > 0 {
            assert padded[j][k] == d[k - 1];
          }
        }
      } else {
        assert padded[j] == parts[j];
      }
    }
  }

  /** Leading zeros are ignored: prefixing a digit run with "0" keeps the key. */
  lemma {:induction false} LeadingZerosIgnored(parts: seq<string>, i: nat)
    requires WellFormed(parts)
    requires i < |parts| && i % 2 == 1
    ensures Key(Concat(parts[i := "0" + parts[i]])) == Key(Concat(parts))
  {
    var padded := parts[i := "0" + parts[i]];
    WellFormedPadded(parts, i);
    SplitUnique(padded);
    SplitUnique(parts);
    LeadingZeroValue(parts[i]);
    var kp := KeyOf(padded);
    var k := KeyOf(parts);
    assert |kp| == |k|;
    forall j | 0 <= j < |k| ensures kp[j] == k[j] {
      if j != i {
        assert padded[j] == parts[j];
      }
    }
    assert kp == k;
  }

  /** "a01" and "a1" have equal keys. */
  lemma LeadingZerosExample()
    ensures Key("a01") == Key("a1")
  {
    var parts := ["a", "1", ""];
    assert WellFormed(parts);
    assert Concat(parts) == "a1" by {
      assert Concat(parts) == "a" + ("1" + ("" + Concat([])));
    }
    assert "0" + parts[1] == "01";
    assert parts[1 := "0" + parts[1]] == ["a", "01", ""];
    assert Concat(["a", "01", ""]) == "a01" by {
      assert Concat(["a", "01", ""]) == "a" + ("01" + ("" + Concat([])));
    }
    LeadingZerosIgnored(parts, 1);
  }

  // ---------------------------------------------------------------------------
  // The key as the source writes it

  /** Characters `str.isdigit` accepts although they are not decimal
      digits (Unicode's Numeric_Type=Digit): superscripts, subscripts,
      circled and parenthesised digits, and the digits of a few scripts. */
  predicate IsDigitLike(c: char) {
    || c == '\U{B2}' || c == '\U{B3}' || c == '\U{B9}'
    || ('\U{1369}' <= c <= '\U{1371}') || c == '\U{19DA}'
    || c == '\U{2070}' || ('\U{2074}' <= c <= '\U{2079}') || ('\U{2080}' <= c <= '\U{2089}')
    || ('\U{2460}' <= c <= '\U{2468}') || ('\U{2474}' <= c <= '\U{247C}') || ('\U{2488}' <= c <= '\U{2490}')
    || c == '\U{24EA}' || ('\U{24F5}' <= c <= '\U{24FD}') || c == '\U{24FF}'
    || ('\U{2776}' <= c <= '\U{277E}') || ('\U{2780}' <= c <= '\U{2788}') || ('\U{278A}' <= c <= '\U{2792}')
    || ('\U{10A40}' <= c <= '\U{10A43}') || ('\U{10E60}' <= c <= '\U{10E68}')
    || ('\U{11052}' <= c <= '\U{1105A}') || ('\U{1E8C7}' <= c <= '\U{1E8CF}')
    || ('\U{1F100}' <= c <= '\U{1F10A}')
  }

  /** `t.isdigit()`: non-empty and every character a digit in the wide sense. */
  predicate PyIsDigit(t: string) {
    |t| > 0 && forall i :: 0 <= i < |t| ==> IsDigit(t[i]) || IsDigitLike(t[i])
  }

  /** The comprehension `[int(t) if t.isdigit() else t.lower() for t in parts[i..]]`;
      `int(t)` raises ValueError (the error carries `t`) unless every
      character of `t` is a decimal digit. */
  function ConvertFrom(parts: seq<string>, i: nat): (r: Result<seq<Seg>, string>)
    requires i <= |parts|
    ensures r.Ok? ==> && |r.value| == |parts| - i
                      && forall k :: 0 <= k < |r.value| ==> (r.value[k].Num? <==> PyIsDigit(parts[i + k]))
    ensures r.Ok? ==> forall k :: i <= k < |parts| ==> !(PyIsDigit(parts[k]) && !AllDigits(parts[k]))
    ensures r.Err? ==> PyIsDigit(r.error) && !AllDigits(r.error) && r.error in parts[i..]
    decreases |parts| - i
  {
    if i == |parts| then Ok([])
    else
      var t := parts[i];
      if PyIsDigit(t) && !AllDigits(t) then Err(t)
      else
        var seg := if PyIsDigit(t) then Num(DecimalValue(t)) else Str(Lower(t));
        match ConvertFrom(parts, i + 1)
        case Ok(rest) => Ok([seg] + rest)
        case Err(e) => Err(e)
  }

  /** `natural_sort_key(s)` exactly as written: segments are classified by
      `str.isdigit`, not by their position in the split. */
  function KeyAsWritten(s: string): (r: Result<seq<Seg>, string>)
    ensures r.Ok? ==> |r.value| == |Split(s)| && forall k :: 0 <= k < |r.value| ==> (r.value[k].Num? <==> PyIsDigit(Split(s)[k]))
    ensures r.Err? ==> exists k :: 0 <= k < |Split(s)| && PyIsDigit(Split(s)[k]) && !AllDigits(Split(s)[k])
    ensures r.Ok? ==> forall k :: 0 <= k < |Split(s)| ==> !(PyIsDigit(Split(s)[k]) && !AllDigits(Split(s)[k]))
    ensures r.Err? ==> r.error in Split(s)
  {
    var parts := Split(s);
    var res := ConvertFrom(parts, 0);
    assert res.Err? ==> exists k :: 0 <= k < |parts| && PyIsDigit(parts[k]) && !AllDigits(parts[k]) by {
      if res.Err? {
        assert parts[0..] == parts;
        var k :| 0 <= k < |parts| && parts[k] == res.error;
      }
    }
    res
  }

  /** A text run made only of digit-like characters. */
  predicate HasDigitLikeText(parts: seq<string>, i: nat) {
    exists j :: i <= j < |parts| && j % 2 == 0 && PyIsDigit(parts[j])
  }

  lemma {:induction false} ConvertFromAgrees(parts: seq<string>, i: nat)
    requires WellFormed(parts) && i <= |parts|
    ensures ConvertFrom(parts, i).Err? <==> HasDigitLikeText(parts, i)
    ensures ConvertFrom(parts, i).Ok? ==> ConvertFrom(parts, i).value == KeyOf(parts)[i..]
    decreases |parts| - i
  {
    if i < |parts| {
      ConvertFromAgrees(parts, i + 1);
      var t := parts[i];
      if i % 2 == 0 {
        assert NoDigits(t);
        if PyIsDigit(t) {
          assert !IsDigit(t[0]);
          assert ConvertFrom(parts, i).Err?;
        } else {
          assert HasDigitLikeText(parts, i) <==> HasDigitLikeText(parts, i + 1);
        }
      } else {
        assert t != [] && AllDigits(t);
        assert PyIsDigit(t);
        assert HasDigitLikeText(parts, i) <==> HasDigitLikeText(parts, i + 1);
      }
      assert KeyOf(parts)[i..] == [KeyOf(parts)[i]] + KeyOf(parts)[i + 1..];
    }
  }

  /** The key as written raises exactly when some text run of the split
      consists only of digit-like characters, and otherwise equals the
      corrected, position-based key. */
  lemma KeyAsWrittenVersusKey(s: string)
    ensures KeyAsWritten(s).Err? <==> HasDigitLikeText(Split(s), 0)
    ensures KeyAsWritten(s).Ok? ==> KeyAsWritten(s).value == Key(s)
  {
    SplitRoundTrip(s);
    ConvertFromAgrees(Split(s), 0);
  }

  lemma ConcatFive(a: string, b: string, c: string, d: string, e: string)
    ensures Concat([a, b, c, d, e]) == a + b + c + d + e
  {
    ConcatDigitCons(b, [c, d, e]);
    assert ["", b] + [c, d, e] == ["", b, c, d, e];
    ConcatCons([a, b, c, d, e]);
    assert [a, b, c, d, e][1..] == [b, c, d, e];
    ConcatCons(["", b, c, d, e]);
    assert ["", b, c, d, e][1..] == [b, c, d, e];
    Concat3(c, d, e);
  }

  lemma ConcatOfFour(d1: string, t: string, d2: string, u: string)
    ensures Concat(["", d1, t, d2, u]) == d1 + t + d2 + u
  {
    var empty: string := "";
    ConcatFive(empty, d1, t, d2, u);
    assert empty + d1 == d1;
  }

  lemma WellFormedFour(d1: string, t: string, d2: string, u: string)
    requires d1 != [] && AllDigits(d1) && d2 != [] && AllDigits(d2)
    requires t != [] && NoDigits(t) && NoDigits(u)
    ensures WellFormed(["", d1, t, d2, u])
  {
    var empty: string := "";
    var parts := [empty, d1, t, d2, u];
    forall i | 0 <= i < |parts|
      ensures && (i % 2 == 0 ==> NoDigits(parts[i]))
              && (i % 2 == 1 ==> parts[i] != [] && AllDigits(parts[i]))
              && (0 < i < |parts| - 1 ==> parts[i] != [])
    {
    }
  }

  /** The split of a digit run, a text run, a digit run and trailing text. */
  lemma SplitOfFour(d1: string, t: string, d2: string, u: string)
    requires d1 != [] && AllDigits(d1) && d2 != [] && AllDigits(d2)
    requires t != [] && NoDigits(t) && NoDigits(u)
    ensures Split(d1 + t + d2 + u) == ["", d1, t, d2, u]
  {
    WellFormedFour(d1, t, d2, u);
    ConcatOfFour(d1, t, d2, u);
    SplitUnique(["", d1, t, d2, u]);
  }

  lemma KeyOfFive(a: string, b: string, c: string, d: string, e: string)
    ensures KeyOf([a, b, c, d, e]) == [Str(Lower(a)), Num(DecimalValue(b)), Str(Lower(c)), Num(DecimalValue(d)), Str(Lower(e))]
  {
  }

  /** A digit-like character between two digit runs makes the key as
      written raise, while the corrected key reads it as a text run. */
  lemma KeyAsWrittenRaisesOn(d1: string, c: char, d2: string, u: string)
    requires d1 != [] && AllDigits(d1) && d2 != [] && AllDigits(d2)
    requires IsDigitLike(c) && NoDigits(u)
    ensures KeyAsWritten(d1 + [c] + d2 + u).Err?
    ensures Key(d1 + [c] + d2 + u) == [Str(""), Num(DecimalValue(d1)), Str([c]), Num(DecimalValue(d2)), Str(Lower(u))]
  {
    var empty: string := "";
    var sup := [c];
    SplitOfFour(d1, sup, d2, u);
    var parts := [empty, d1, sup, d2, u];
    assert HasDigitLikeText(parts, 0) by {
      assert parts[2] == sup && PyIsDigit(sup);
    }
    KeyAsWrittenVersusKey(d1 + sup + d2 + u);
    KeyOfFive(empty, d1, sup, d2, u);
    assert Lower(empty) == empty;
    assert Lower(sup) == sup by {
      assert Lower(sup)[0] == sup[0];
    }
  }

  /** The file name "1\U{B2}1.png" (a superscript two between two digit runs)
      makes the key as written raise: its split is "", "1", "\U{B2}", "1",
      ".png" and `int` rejects the superscript; the corrected key treats that
      segment as text. */
  lemma KeyAsWrittenRaises()
    ensures KeyAsWritten("1\U{B2}1.png").Err?
    ensures Key("1\U{B2}1.png") == [Str(""), Num(1), Str("\U{B2}"), Num(1), Str(".png")]
  {
    var one, png := "1", ".png";
    var sup := '\U{B2}';
    assert one + [sup] + one + png == "1\U{B2}1.png";
    KeyAsWrittenRaisesOn(one, sup, one, png);
    assert DecimalValue(one) == 1 by {
      assert one[..0] == "";
    }
    assert Lower(png) == png;
  }
}
