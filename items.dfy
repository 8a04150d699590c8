/**
 * LR(0) items: a left-hand side and a right-hand side string holding a '.'
 * that marks how much of the production has been recognised. Items are
 * compared structurally and ordered lexicographically on (lhs, rhs), the
 * order in which std::set<LR0Item> enumerates them.
 */
module Items {
  import opened Grammar

  datatype Item = Item(lhs: char, rhs: string)

  /** std::string::find('.'): the first dot, or -1 for npos. */
  function FindDot(s: string): (d: int)
    ensures -1 <= d < |s|
    ensures d == -1 <==> Dot !in s
    ensures d >= 0 ==> s[d] == Dot && Dot !in s[..d]
  {
    if |s| == 0 then -1
    else if s[0] == Dot then 0
    else
      var d := FindDot(s[1..]);
      if d == -1 then -1
      else
        assert s[..d + 1] == [s[0]] + s[1..][..d];
        d + 1
  }

  /** The symbol right after the dot, when the dot is not the last character. */
  function NextSymbol(x: Item): Option<char> {
    var d := FindDot(x.rhs);
    if 0 <= d && d < |x.rhs| - 1 then Some(x.rhs[d + 1]) else None
  }

  /** The item with the dot swapped one place to the right, past the next symbol. */
  function Advance(x: Item): (y: Item)
    requires NextSymbol(x).Some?
    ensures y.lhs == x.lhs && |y.rhs| == |x.rhs|
    ensures var d := FindDot(x.rhs);
      y.rhs[d] == NextSymbol(x).value && y.rhs[d + 1] == Dot &&
      (forall k :: 0 <= k < |x.rhs| && k != d && k != d + 1 ==> y.rhs[k] == x.rhs[k])
    ensures NextSymbol(x).value != Dot ==> FindDot(y.rhs) == FindDot(x.rhs) + 1
  {
    var d := FindDot(x.rhs);
    var r := x.rhs[d := x.rhs[d + 1]][d + 1 := Dot];
    assert NextSymbol(x).value != Dot ==> Dot !in r[..d + 1] by {
      if NextSymbol(x).value != Dot {
        assert r[..d + 1] == x.rhs[..d] + [x.rhs[d + 1]];
      }
    }
    Item(x.lhs, r)
  }

  /** Every character of an advanced item already occurs in the item. */
  lemma AdvanceKeepsCharacters(x: Item, k: nat)
    requires NextSymbol(x).Some? && k < |x.rhs|
    ensures Advance(x).rhs[k] in x.rhs
  {
    var d := FindDot(x.rhs);
    if k == d {
      assert Advance(x).rhs[k] == x.rhs[d + 1];
    } else if k == d + 1 {
      assert Advance(x).rhs[k] == x.rhs[d];
    }
  }

  /** std::string operator<: lexicographic, a proper prefix comes first. */
  predicate StrLess(a: string, b: string)
    decreases |a|
  {
    (|a| == 0 && |b| > 0) ||
    (|a| > 0 && |b| > 0 && (a[0] < b[0] || (a[0] == b[0] && StrLess(a[1..], b[1..]))))
  }

  /** LR0Item::operator<: by lhs, then by rhs. */
  predicate ItemLess(x: Item, y: Item) {
    x.lhs < y.lhs || (x.lhs == y.lhs && StrLess(x.rhs, y.rhs))
  }

  lemma {:induction false} StrLessIrreflexive(a: string)
    ensures !StrLess(a, a)
    decreases |a|
  {
    if |a| > 0 {
      StrLessIrreflexive(a[1..]);
    }
  }

  lemma {:induction false} StrLessTransitive(a: string, b: string, c: string)
    requires StrLess(a, b) && StrLess(b, c)
    ensures StrLess(a, c)
    decreases |a|
  {
    if |a| > 0 && a[0] == b[0] && b[0] == c[0] {
      StrLessTransitive(a[1..], b[1..], c[1..]);
    }
  }

  lemma {:induction false} StrLessTotal(a: string, b: string)
    ensures a == b || StrLess(a, b) || StrLess(b, a)
    decreases |a|
  {
    if |a| > 0 && |b| > 0 && a[0] == b[0] {
      StrLessTotal(a[1..], b[1..]);
      if a[1..] == b[1..] {
        assert a == [a[0]] + a[1..] && b == [b[0]] + b[1..];
      }
    }
  }

  /** The item order is a strict total order, as std::set requires. */
  lemma ItemLessIsStrictTotalOrder(x: Item, y: Item, z: Item)
    ensures !ItemLess(x, x)
    ensures ItemLess(x, y) && ItemLess(y, z) ==> ItemLess(x, z)
    ensures x == y || ItemLess(x, y) || ItemLess(y, x)
  {
    StrLessIrreflexive(x.rhs);
    if ItemLess(x, y) && ItemLess(y, z) && x.lhs == y.lhs && y.lhs == z.lhs {
      StrLessTransitive(x.rhs, y.rhs, z.rhs);
    }
    StrLessTotal(x.rhs, y.rhs);
  }

  lemma ItemLessAsymmetric(x: Item, y: Item)
    ensures !(ItemLess(x, y) && ItemLess(y, x))
  {
    ItemLessIsStrictTotalOrder(x, y, x);
  }

  ghost predicate IsLeast(m: Item, s: set<Item>) {
    m in s && forall y :: y in s && y != m ==> ItemLess(m, y)
  }

  lemma {:induction false} LeastExists(s: set<Item>)
    requires s != {}
    ensures exists m :: IsLeast(m, s)
    decreases |s|
  {
    var x :| x in s;
    if s == {x} {
      assert IsLeast(x, s);
    } else {
      LeastExists(s - {x});
      var m :| IsLeast(m, s - {x});
      ItemLessIsStrictTotalOrder(x, m, x);
      if ItemLess(x, m) {
        forall y | y in s && y != x
          ensures ItemLess(x, y)
        {
          if y != m {
            ItemLessIsStrictTotalOrder(x, m, y);
          }
        }
        assert IsLeast(x, s);
      } else {
        assert IsLeast(m, s);
      }
    }
  }

  lemma LeastUnique(m1: Item, m2: Item, s: set<Item>)
    requires IsLeast(m1, s) && IsLeast(m2, s)
    ensures m1 == m2
  {
    ItemLessAsymmetric(m1, m2);
  }

  /** The first element of a std::set<LR0Item>: *begin(). */
  ghost function Least(s: set<Item>): (m: Item)
    requires s != {}
    ensures IsLeast(m, s)
  {
    LeastExists(s);
    var m :| IsLeast(m, s);
    m
  }

  /** Finds the least item of a non-empty set by a linear scan. */
  method FindLeast(s: set<Item>) returns (m: Item)
    requires s != {}
    ensures m in s && forall y :: y in s && y != m ==> ItemLess(m, y)
    ensures m == Least(s)
  {
    m :| m in s;
    var rest := s - {m};
    while rest != {}
      invariant rest <= s && m in s && m !in rest
      invariant forall y :: y in s - rest && y != m ==> ItemLess(m, y)
      decreases rest
    {
      var y :| y in rest;
      ItemLessIsStrictTotalOrder(m, y, m);
      if ItemLess(y, m) {
        forall z | z in s - (rest - {y}) && z != y
          ensures ItemLess(y, z)
        {
          if z != m {
            ItemLessIsStrictTotalOrder(y, m, z);
          }
        }
        m := y;
      }
      rest := rest - {y};
    }
    LeastUnique(m, Least(s), s);
  }

  lemma {:induction false} LeastSymbolExists(s: set<char>)
    requires s != {}
    ensures exists c :: c in s && forall d :: d in s ==> c <= d
    decreases |s|
  {
    var x :| x in s;
    if s != {x} {
      LeastSymbolExists(s - {x});
      var m :| m in s - {x} && forall d :: d in s - {x} ==> m <= d;
      var least := if x < m then x else m;
      forall d | d in s
        ensures least <= d
      {
        if d != x {
          assert d in s - {x};
        }
      }
    }
  }

  /** The first element of a std::set<char>: *begin(). */
  ghost function LeastSymbol(s: set<char>): (c: char)
    requires s != {}
    ensures c in s && forall d :: d in s ==> c <= d
  {
    LeastSymbolExists(s);
    var c :| c in s && forall d :: d in s ==> c <= d;
    c
  }

  /** Finds the least character of a non-empty set by a linear scan. */
  method FindLeastSymbol(s: set<char>) returns (c: char)
    requires s != {}
    ensures c in s && forall d :: d in s ==> c <= d
    ensures c == LeastSymbol(s)
  {
    c :| c in s;
    var rest := s - {c};
    while rest != {}
      invariant rest <= s && c in s
      invariant forall d :: d in s && d !in rest ==> c <= d
      decreases rest
    {
      var d :| d in rest;
      if d < c {
        c := d;
      }
      rest := rest - {d};
    }
  }
}
