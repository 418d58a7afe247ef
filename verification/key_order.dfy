/** How Python compares two natural keys: lists compare element by element,
    the first differing element decides, and a proper prefix comes first.
    Text runs compare as Python strings (code point by code point), digit
    runs as integers. */
module KeyOrder {
  import opened Text
  import opened NaturalKey

  /** Python's `a < b` on `str`. */
  predicate StrLt(a: string, b: string) {
    if |b| == 0 then false
    else if |a| == 0 then true
    else if a[0] != b[0] then a[0] < b[0]
    else StrLt(a[1..], b[1..])
  }

  /** `x < y` on two key elements. Python raises TypeError when a number meets
      a string; `ComparisonNeverMixesTypes` shows keys never reach that case,
      so the order chosen for it here is immaterial. */
  predicate SegLt(x: Seg, y: Seg) {
    match (x, y)
    case (Str(a), Str(b)) => StrLt(a, b)
    case (Num(m), Num(n)) => m < n
    case (Num(_), Str(_)) => true
    case (Str(_), Num(_)) => false
  }

  /** Python's `a < b` on two keys (lists): a proper prefix sorts first,
      and a key never sorts before one of its own prefixes. */
  predicate KeyLt(a: seq<Seg>, b: seq<Seg>): (r: bool)
    ensures r ==> a != b
    ensures |a| < |b| && a == b[..|a|] ==> r
    ensures |b| <= |a| && b == a[..|b|] ==> !r
  {
    if |b| == 0 then false
    else if |a| == 0 then true
    else if a[0] != b[0] then SegLt(a[0], b[0])
    else
      assert |a| < |b| && a == b[..|a|] ==> a[1..] == b[1..][..|a| - 1];
      assert |b| <= |a| && b == a[..|b|] ==> b[1..] == a[1..][..|b| - 1];
      KeyLt(a[1..], b[1..])
  }

  predicate KeyLe(a: seq<Seg>, b: seq<Seg>) {
    a == b || KeyLt(a, b)
  }

  // ---------------------------------------------------------------------------
  // KeyLt is a strict total order

  lemma {:induction false} StrLtIrreflexive(a: string)
    ensures !StrLt(a, a)
  {
    if |a| > 0 {
      StrLtIrreflexive(a[1..]);
    }
  }

  lemma {:induction false} StrLtTransitive(a: string, b: string, c: string)
    requires StrLt(a, b) && StrLt(b, c)
    ensures StrLt(a, c)
  {
    if |a| > 0 && a[0] == b[0] && b[0] == c[0] {
      StrLtTransitive(a[1..], b[1..], c[1..]);
    }
  }

  lemma {:induction false} StrLtTotal(a: string, b: string)
    requires a != b
    ensures StrLt(a, b) || StrLt(b, a)
  {
    if |a| > 0 && |b| > 0 && a[0] == b[0] {
      assert a == [a[0]] + a[1..] && b == [b[0]] + b[1..];
      StrLtTotal(a[1..], b[1..]);
    }
  }

  lemma {:induction false} StrLtAsymmetric(a: string, b: string)
    requires StrLt(a, b)
    ensures !StrLt(b, a)
  {
    if |a| > 0 && a[0] == b[0] {
      StrLtAsymmetric(a[1..], b[1..]);
    }
  }

  lemma SegLtIrreflexive(x: Seg)
    ensures !SegLt(x, x)
  {
    if x.Str? {
      StrLtIrreflexive(x.text);
    }
  }

  lemma SegLtTransitive(x: Seg, y: Seg, z: Seg)
    requires SegLt(x, y) && SegLt(y, z)
    ensures SegLt(x, z)
  {
    if x.Str? && y.Str? && z.Str? {
      StrLtTransitive(x.text, y.text, z.text);
    }
  }

  lemma SegLtTotal(x: Seg, y: Seg)
    requires x != y
    ensures SegLt(x, y) || SegLt(y, x)
  {
    if x.Str? && y.Str? {
      StrLtTotal(x.text, y.text);
    }
  }

  lemma SegLtAsymmetric(x: Seg, y: Seg)
    requires SegLt(x, y)
    ensures !SegLt(y, x)
  {
    if x.Str? && y.Str? {
      StrLtAsymmetric(x.text, y.text);
    }
  }

  lemma {:induction false} KeyLtIrreflexive(a: seq<Seg>)
    ensures !KeyLt(a, a)
  {
    if |a| > 0 {
      KeyLtIrreflexive(a[1..]);
    }
  }

  lemma {:induction false} KeyLtTransitive(a: seq<Seg>, b: seq<Seg>, c: seq<Seg>)
    requires KeyLt(a, b) && KeyLt(b, c)
    ensures KeyLt(a, c)
  {
    if |a| > 0 {
      if a[0] == b[0] && b[0] == c[0] {
        KeyLtTransitive(a[1..], b[1..], c[1..]);
      } else if a[0] != b[0] && b[0] != c[0] {
        SegLtTransitive(a[0], b[0], c[0]);
        if a[0] == c[0] {
          SegLtAsymmetric(a[0], b[0]);
        }
      }
    }
  }

  lemma {:induction false} KeyLtTotal(a: seq<Seg>, b: seq<Seg>)
    requires a != b
    ensures KeyLt(a, b) || KeyLt(b, a)
  {
    if |a| > 0 && |b| > 0 {
      if a[0] == b[0] {
        assert a == [a[0]] + a[1..] && b == [b[0]] + b[1..];
        KeyLtTotal(a[1..], b[1..]);
      } else {
        SegLtTotal(a[0], b[0]);
      }
    }
  }

  lemma {:induction false} KeyLtAsymmetric(a: seq<Seg>, b: seq<Seg>)
    requires KeyLt(a, b)
    ensures !KeyLt(b, a)
  {
    if |a| > 0 {
      if a[0] == b[0] {
        KeyLtAsymmetric(a[1..], b[1..]);
      } else {
        SegLtAsymmetric(a[0], b[0]);
      }
    }
  }

  lemma KeyLeTransitive(a: seq<Seg>, b: seq<Seg>, c: seq<Seg>)
    requires KeyLe(a, b) && KeyLe(b, c)
    ensures KeyLe(a, c)
  {
    if KeyLt(a, b) && KeyLt(b, c) {
      KeyLtTransitive(a, b, c);
    }
  }

  lemma KeyLeAntisymmetric(a: seq<Seg>, b: seq<Seg>)
    requires KeyLe(a, b) && KeyLe(b, a)
    ensures a == b
  {
    if a != b {
      KeyLtAsymmetric(a, b);
    }
  }

  /** Not `a <= b` means `b < a`. */
  lemma KeyNotLe(a: seq<Seg>, b: seq<Seg>)
    requires !KeyLe(a, b)
    ensures KeyLt(b, a)
  {
    KeyLtTotal(a, b);
  }

  // ---------------------------------------------------------------------------
  // Natural keys under this order

  /** At every position both keys have, the elements are both text or both
      numbers, so Python's list comparison never compares a number with a
      string. */
  lemma ComparisonNeverMixesTypes(s: string, t: string)
    ensures forall i :: 0 <= i < |Key(s)| && i < |Key(t)| ==> Key(s)[i].Str? == Key(t)[i].Str?
  {
    KeyShape(s);
    KeyShape(t);
  }

  /** Digit runs compare by value: after the same digit-free text, a run of
      smaller value sorts first whatever the number of digits. */
  lemma {:induction false} NumericRunsCompareByValue(p: string, a: string, b: string)
    requires NoDigits(p)
    requires a != [] && AllDigits(a) && b != [] && AllDigits(b)
    requires DecimalValue(a) < DecimalValue(b)
    ensures KeyLt(Key(p + a), Key(p + b))
  {
    var pa := [p, a, ""];
    var pb := [p, b, ""];
    assert WellFormed(pa) && WellFormed(pb);
    Concat3(p, a, "");
    Concat3(p, b, "");
    assert p + a + "" == p + a && p + b + "" == p + b;
    SplitUnique(pa);
    SplitUnique(pb);
    var ka := Key(p + a);
    var kb := Key(p + b);
    assert ka[0] == kb[0] && ka[1] == Num(DecimalValue(a)) && kb[1] == Num(DecimalValue(b));
    assert ka[1..][0] == ka[1] && kb[1..][0] == kb[1];
  }

  /** "img2" sorts before "img10". */
  lemma Img2BeforeImg10()
    ensures KeyLt(Key("img2"), Key("img10"))
  {
    assert "img2" == "img" + "2" && "img10" == "img" + "10";
    assert DecimalValue("2") == 2 by {
      assert "2"[..0] == "";
    }
    assert DecimalValue("10") == 10 by {
      assert "10"[..1] == "1" && "1"[..0] == "";
    }
    NumericRunsCompareByValue("img", "2", "10");
  }
}
