/**
 * The order `Array.prototype.sort()` puts strings in when it is given no
 * comparator (character by character, a proper prefix first), and the sorted
 * list of an object's keys, `Object.keys(o).sort()`. A character here is a
 * Unicode scalar value; JavaScript compares UTF-16 code units, which orders
 * the same way for text without characters beyond U+FFFF.
 */
module Order {
  import opened Text

  predicate LexLt(a: string, b: string)
    decreases |a|
  {
    if a == [] then b != []
    else b != [] && (a[0] < b[0] || (a[0] == b[0] && LexLt(a[1..], b[1..])))
  }

  lemma {:induction false} LexLtIrreflexive(a: string)
    ensures !LexLt(a, a)
    decreases |a|
  {
    if a != [] {
      LexLtIrreflexive(a[1..]);
    }
  }

  lemma {:induction false} LexLtAsymmetric(a: string, b: string)
    requires LexLt(a, b)
    ensures !LexLt(b, a)
    decreases |a|
  {
    if a != [] && a[0] == b[0] {
      LexLtAsymmetric(a[1..], b[1..]);
    }
  }

  lemma {:induction false} LexLtTransitive(a: string, b: string, c: string)
    requires LexLt(a, b) && LexLt(b, c)
    ensures LexLt(a, c)
    decreases |a|
  {
    if a != [] && a[0] == b[0] && b[0] == c[0] {
      LexLtTransitive(a[1..], b[1..], c[1..]);
    }
  }

  lemma {:induction false} LexLtTotal(a: string, b: string)
    requires a != b
    ensures LexLt(a, b) || LexLt(b, a)
    decreases |a|
  {
    if a != [] && b != [] && a[0] == b[0] {
      assert a == [a[0]] + a[1..] && b == [b[0]] + b[1..];
      LexLtTotal(a[1..], b[1..]);
    }
  }

  /** Comparing two strings whose first parts have the same length. */
  lemma {:induction false} LexLtConcat(p1: string, q1: string, p2: string, q2: string)
    requires |p1| == |p2|
    ensures LexLt(p1 + q1, p2 + q2) <==> LexLt(p1, p2) || (p1 == p2 && LexLt(q1, q2))
    decreases |p1|
  {
    if p1 != [] {
      assert (p1 + q1)[0] == p1[0] && (p2 + q2)[0] == p2[0];
      assert (p1 + q1)[1..] == p1[1..] + q1 && (p2 + q2)[1..] == p2[1..] + q2;
      LexLtConcat(p1[1..], q1, p2[1..], q2);
      assert p1 == p2 <==> p1[0] == p2[0] && p1[1..] == p2[1..] by {
        assert p1 == [p1[0]] + p1[1..] && p2 == [p2[0]] + p2[1..];
      }
    } else {
      assert p1 + q1 == q1 && p2 + q2 == q2;
    }
  }

  /** For digit strings of one length, the string order is the numeric order. */
  lemma {:induction false} DigitOrder(a: string, b: string)
    requires |a| == |b| && AllDigits(a) && AllDigits(b)
    ensures LexLt(a, b) <==> Value(a) < Value(b)
    decreases |a|
  {
    if a != [] {
      var n := |a|;
      var a', b' := a[..n - 1], b[..n - 1];
      assert a == a' + [a[n - 1]] && b == b' + [b[n - 1]];
      LexLtConcat(a', [a[n - 1]], b', [b[n - 1]]);
      DigitOrder(a', b');
      DigitOrder(b', a');
      if a' != b' {
        LexLtTotal(a', b');
      }
    }
  }

  lemma DigitsInjective(a: string, b: string)
    requires |a| == |b| && AllDigits(a) && AllDigits(b) && Value(a) == Value(b)
    ensures a == b
  {
    if a != b {
      LexLtTotal(a, b);
      DigitOrder(a, b);
      DigitOrder(b, a);
    }
  }

  predicate StrictlySorted(ks: seq<string>) {
    forall i, j :: 0 <= i < j < |ks| ==> LexLt(ks[i], ks[j])
  }

  predicate IsLeast(m: string, s: set<string>) {
    m in s && forall x :: x in s && x != m ==> LexLt(m, x)
  }

  lemma {:induction false} LeastExists(s: set<string>)
    requires s != {}
    ensures exists m :: IsLeast(m, s)
    decreases |s|
  {
    var x :| x in s;
    if s - {x} == {} {
      assert s == {x};
      assert IsLeast(x, s);
    } else {
      LeastExists(s - {x});
      var m :| IsLeast(m, s - {x});
      if LexLt(m, x) {
        assert IsLeast(m, s);
      } else {
        LexLtTotal(m, x);
        forall y | y in s && y != x
          ensures LexLt(x, y)
        {
          if y != m {
            LexLtTransitive(x, m, y);
          }
        }
        assert IsLeast(x, s);
      }
    }
  }

  lemma LeastUnique(s: set<string>)
    ensures forall m1, m2 :: IsLeast(m1, s) && IsLeast(m2, s) ==> m1 == m2
  {
    forall m1, m2 | IsLeast(m1, s) && IsLeast(m2, s)
      ensures m1 == m2
    {
      if m1 != m2 {
        LexLtAsymmetric(m1, m2);
      }
    }
  }

  /** `Object.keys(o).sort()` for an object whose key set is `s`. */
  function SortKeys(s: set<string>): (ks: seq<string>)
    ensures StrictlySorted(ks)
    ensures forall k :: k in ks <==> k in s
    ensures |ks| == |s|
    decreases |s|
  {
    if s == {} then []
    else
      LeastExists(s);
      LeastUnique(s);
      var m :| IsLeast(m, s);
      var rest := SortKeys(s - {m});
      assert forall j :: 0 <= j < |rest| ==> rest[j] in s - {m} && LexLt(m, rest[j]);
      [m] + rest
  }
}
