/**
 * Ascending enumeration of a finite set of keys under a strict total order:
 * the order in which a std::map visits its entries. Both lobby registries use
 * it, one with integer ids and one with string keys in lexicographic order.
 */
module Ordering {

  ghost predicate StrictTotalOrder<T(!new)>(lt: (T, T) -> bool)
  {
    (forall x :: !lt(x, x))
    && (forall x, y, z :: lt(x, y) && lt(y, z) ==> lt(x, z))
    && (forall x, y :: x != y ==> lt(x, y) || lt(y, x))
  }

  /** x is the least element of s. */
  ghost predicate IsLeast<T>(lt: (T, T) -> bool, s: set<T>, x: T)
  {
    x in s && forall y :: y in s && y != x ==> lt(x, y)
  }

  ghost predicate Ascending<T>(lt: (T, T) -> bool, ks: seq<T>)
  {
    forall i, j :: 0 <= i < j < |ks| ==> lt(ks[i], ks[j])
  }

  /** Every non-empty finite set has a least element. */
  lemma {:induction false} LeastExists<T(!new)>(lt: (T, T) -> bool, s: set<T>)
    requires StrictTotalOrder(lt) && s != {}
    ensures exists x :: IsLeast(lt, s, x)
    decreases |s|
  {
    var y :| y in s;
    var rest := s - {y};
    if rest == {} {
      assert s == {y};
      assert IsLeast(lt, s, y);
    } else {
      LeastExists(lt, rest);
      var m :| IsLeast(lt, rest, m);
      if lt(m, y) {
        assert IsLeast(lt, s, m);
      } else {
        assert IsLeast(lt, s, y);
      }
    }
  }

  /** The least element is unique. */
  lemma LeastUnique<T(!new)>(lt: (T, T) -> bool, s: set<T>, x: T, y: T)
    requires StrictTotalOrder(lt) && IsLeast(lt, s, x) && IsLeast(lt, s, y)
    ensures x == y
  {
    if x != y {
      assert false;
    }
  }

  /** The keys of s in ascending order. */
  ghost function SortedKeys<T(!new)>(lt: (T, T) -> bool, s: set<T>): (ks: seq<T>)
    requires StrictTotalOrder(lt)
    decreases |s|
  {
    if s == {} then []
    else
      LeastExists(lt, s);
      var m :| IsLeast(lt, s, m);
      [m] + SortedKeys(lt, s - {m})
  }

  /** Enumeration starts with the least key and goes on with the others. */
  lemma SortedKeysUnfold<T(!new)>(lt: (T, T) -> bool, s: set<T>, m: T)
    requires StrictTotalOrder(lt) && IsLeast(lt, s, m)
    ensures SortedKeys(lt, s) == [m] + SortedKeys(lt, s - {m})
  {
    LeastExists(lt, s);
    var m' :| IsLeast(lt, s, m') && SortedKeys(lt, s) == [m'] + SortedKeys(lt, s - {m'});
    LeastUnique(lt, s, m, m');
  }

  /** The enumeration lists exactly the keys, each once, in ascending order. */
  lemma {:induction false} SortedKeysSpec<T(!new)>(lt: (T, T) -> bool, s: set<T>)
    requires StrictTotalOrder(lt)
    ensures |SortedKeys(lt, s)| == |s|
    ensures forall k :: k in SortedKeys(lt, s) <==> k in s
    ensures Ascending(lt, SortedKeys(lt, s))
    decreases |s|
  {
    if s != {} {
      LeastExists(lt, s);
      var m :| IsLeast(lt, s, m);
      SortedKeysUnfold(lt, s, m);
      var rest := s - {m};
      SortedKeysSpec(lt, rest);
      var ks := SortedKeys(lt, s);
      assert ks == [m] + SortedKeys(lt, rest);
      forall i, j | 0 <= i < j < |ks| ensures lt(ks[i], ks[j]) {
        if i == 0 {
          assert ks[j] == SortedKeys(lt, rest)[j - 1];
          assert ks[j] in rest;
        } else {
          assert ks[i] == SortedKeys(lt, rest)[i - 1] && ks[j] == SortedKeys(lt, rest)[j - 1];
        }
      }
    }
  }

  // ---------------------------------------------------------------------------
  // Two orders: integers, and strings compared character by character

  function IntLess(a: int, b: int): bool
  {
    a < b
  }

  lemma IntLessTotal()
    ensures StrictTotalOrder(IntLess)
  {
  }

  /** std::string's operator<: the first differing character decides, and a
      proper prefix is smaller. */
  function LexLess(a: string, b: string): bool
  {
    if a == [] then b != []
    else if b == [] then false
    else if a[0] != b[0] then a[0] < b[0]
    else LexLess(a[1..], b[1..])
  }

  lemma {:induction false} LexIrreflexive(a: string)
    ensures !LexLess(a, a)
  {
    if a != [] {
      LexIrreflexive(a[1..]);
    }
  }

  lemma {:induction false} LexTransitive(a: string, b: string, c: string)
    requires LexLess(a, b) && LexLess(b, c)
    ensures LexLess(a, c)
  {
    if a != [] && b != [] && c != [] && a[0] == b[0] && b[0] == c[0] {
      LexTransitive(a[1..], b[1..], c[1..]);
    }
  }

  lemma {:induction false} LexTotal(a: string, b: string)
    requires a != b
    ensures LexLess(a, b) || LexLess(b, a)
  {
    if a != [] && b != [] && a[0] == b[0] {
      assert a == [a[0]] + a[1..] && b == [b[0]] + b[1..];
      LexTotal(a[1..], b[1..]);
    }
  }

  /** Lexicographic order is a strict total order on strings. */
  lemma LexLessTotal()
    ensures StrictTotalOrder(LexLess)
  {
    forall a ensures !LexLess(a, a) { LexIrreflexive(a); }
    forall a, b, c | LexLess(a, b) && LexLess(b, c) ensures LexLess(a, c) { LexTransitive(a, b, c); }
    forall a, b | a != b ensures LexLess(a, b) || LexLess(b, a) { LexTotal(a, b); }
  }
}
