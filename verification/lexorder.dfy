/**
  Python's ordering of `str` values (lexicographic by code point, a proper
  prefix first) and `sorted` applied to a set of strings.
*/
module LexOrder {

  /** `a <= b` on Python strings. */
  predicate LexLe(a: string, b: string)
    decreases |a|
  {
    |a| == 0 || (|b| > 0 && (a[0] < b[0] || (a[0] == b[0] && LexLe(a[1..], b[1..]))))
  }

  predicate LexLess(a: string, b: string)
  {
    LexLe(a, b) && a != b
  }

  lemma {:induction false} LexLeTotal(a: string, b: string)
    ensures LexLe(a, b) || LexLe(b, a)
    decreases |a|
  {
    if |a| > 0 && |b| > 0 && a[0] == b[0] {
      LexLeTotal(a[1..], b[1..]);
    }
  }

  lemma {:induction false} LexLeAntisymmetric(a: string, b: string)
    requires LexLe(a, b) && LexLe(b, a)
    ensures a == b
    decreases |a|
  {
    if |a| > 0 {
      LexLeAntisymmetric(a[1..], b[1..]);
      assert a == [a[0]] + a[1..] && b == [b[0]] + b[1..];
    }
  }

  lemma {:induction false} LexLeTransitive(a: string, b: string, c: string)
    requires LexLe(a, b) && LexLe(b, c)
    ensures LexLe(a, c)
    decreases |a|
  {
    if |a| > 0 && a[0] == b[0] && b[0] == c[0] {
      LexLeTransitive(a[1..], b[1..], c[1..]);
    }
  }

  lemma LexLeAntisymmetricAll()
    ensures forall a, b :: LexLe(a, b) && LexLe(b, a) ==> a == b
  {
    forall a, b | LexLe(a, b) && LexLe(b, a) ensures a == b {
      LexLeAntisymmetric(a, b);
    }
  }

  /** `m` is the smallest element of `s`. */
  ghost predicate IsLeast(m: string, s: set<string>)
  {
    m in s && forall x :: x in s ==> LexLe(m, x)
  }

  lemma {:induction false} LeastExists(s: set<string>)
    requires s != {}
    ensures exists m :: IsLeast(m, s)
    decreases |s|
  {
    var x :| x in s;
    if s == {x} {
      assert LexLe(x, x) by { LexLeTotal(x, x); }
      assert IsLeast(x, s);
    } else {
      LeastExists(s - {x});
      var m :| IsLeast(m, s - {x});
      LexLeTotal(m, x);
      if LexLe(m, x) {
        assert IsLeast(m, s);
      } else {
        forall y | y in s ensures LexLe(x, y) {
          if y == x {
            LexLeTotal(x, x);
          } else {
            LexLeTransitive(x, m, y);
          }
        }
        assert IsLeast(x, s);
      }
    }
  }

  /** Python's `min(s)` for a non-empty set of strings. */
  function Least(s: set<string>): (m: string)
    requires s != {}
    ensures IsLeast(m, s)
  {
    LeastExists(s);
    LexLeAntisymmetricAll();
    var m :| m in s && forall x :: x in s ==> LexLe(m, x);
    m
  }

  /** Every element is smaller than every later one, so no element repeats. */
  ghost predicate StrictlySorted(xs: seq<string>)
  {
    forall i, j :: 0 <= i < j < |xs| ==> LexLess(xs[i], xs[j])
  }

  /** Python's `sorted(s)` for a set of strings: its elements once each, ascending. */
  function Sorted(s: set<string>): (r: seq<string>)
    ensures |r| == |s|
    ensures forall x :: x in r <==> x in s
    ensures StrictlySorted(r)
    decreases |s|
  {
    if s == {} then []
    else
      var m := Least(s);
      [m] + Sorted(s - {m})
  }

  /** There is only one ascending arrangement of a set: `sorted` is deterministic. */
  lemma {:induction false} SortedUnique(xs: seq<string>, ys: seq<string>)
    requires StrictlySorted(xs) && StrictlySorted(ys)
    requires forall x :: x in xs <==> x in ys
    ensures xs == ys
    decreases |xs|
  {
    assert xs != [] ==> xs[0] in ys;
    assert ys != [] ==> ys[0] in xs;
    if xs != [] && ys != [] {
      assert LexLe(xs[0], ys[0]) by {
        assert ys[0] in xs;
        var j :| 0 <= j < |xs| && xs[j] == ys[0];
        if j > 0 { assert LexLess(xs[0], xs[j]); } else { LexLeTotal(xs[0], xs[0]); }
      }
      assert LexLe(ys[0], xs[0]) by {
        assert xs[0] in ys;
        var j :| 0 <= j < |ys| && ys[j] == xs[0];
        if j > 0 { assert LexLess(ys[0], ys[j]); } else { LexLeTotal(ys[0], ys[0]); }
      }
      LexLeAntisymmetric(xs[0], ys[0]);
      forall x ensures x in xs[1..] <==> x in ys[1..] {
        if x in xs[1..] {
          var j :| 1 <= j < |xs| && xs[j] == x;
          assert LexLess(xs[0], xs[j]);
          assert x in ys && x != ys[0];
        }
        if x in ys[1..] {
          var j :| 1 <= j < |ys| && ys[j] == x;
          assert LexLess(ys[0], ys[j]);
          assert x in xs && x != xs[0];
        }
      }
      SortedUnique(xs[1..], ys[1..]);
      assert xs == [xs[0]] + xs[1..] && ys == [ys[0]] + ys[1..];
    }
  }
}
