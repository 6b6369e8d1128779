/**
  Python's ordering of `str` values and the two uses the taxonomy makes of
  `sorted`: sorting a list of strings (duplicates kept) and listing the keys
  of a dictionary in ascending order.

  Python compares strings code point by code point; a proper prefix comes
  first. Dafny's `<` on `string` means "proper prefix", so the order is
  defined here explicitly.
 */
module StringOrder {

  /** Python's `a <= b` on `str`: lexicographic by code point. */
  predicate LexLe(a: string, b: string)
    decreases |a|
  {
    a == [] || (b != [] && (a[0] < b[0] || (a[0] == b[0] && LexLe(a[1..], b[1..]))))
  }

  /** Python's `a < b` on `str`. */
  predicate LexLess(a: string, b: string)
  {
    LexLe(a, b) && a != b
  }

  /** Ascending, equal neighbours allowed: what `sorted` returns for a list. */
  predicate IsSorted(s: seq<string>)
  {
    forall i, j {:trigger LexLe(s[i], s[j])} :: 0 <= i < j < |s| ==> LexLe(s[i], s[j])
  }

  /** Ascending without repetition: what `sorted` returns for dictionary keys. */
  predicate IsStrictlySorted(s: seq<string>)
  {
    forall i, j {:trigger LexLess(s[i], s[j])} :: 0 <= i < j < |s| ==> LexLess(s[i], s[j])
  }

  /** `x` is no greater than any member of `s`. */
  predicate IsLeast(x: string, s: set<string>)
  {
    forall y {:trigger LexLe(x, y)} :: y in s ==> LexLe(x, y)
  }

  lemma {:induction false} LexLeReflexive(a: string)
    ensures LexLe(a, a)
  {
    if a != [] {
      LexLeReflexive(a[1..]);
    }
  }

  lemma {:induction false} LexLeAntisymmetric(a: string, b: string)
    requires LexLe(a, b) && LexLe(b, a)
    ensures a == b
  {
    assert a != [] ==> a[0] in b;
    assert b != [] ==> b[0] in a;
    if a != [] && b != [] {
      LexLeAntisymmetric(a[1..], b[1..]);
      assert a == [a[0]] + a[1..] && b == [b[0]] + b[1..];
    }
  }

  lemma {:induction false} LexLeTransitive(a: string, b: string, c: string)
    requires LexLe(a, b) && LexLe(b, c)
    ensures LexLe(a, c)
  {
    if a != [] && b != [] && c != [] && a[0] == b[0] == c[0] {
      LexLeTransitive(a[1..], b[1..], c[1..]);
    }
  }

  lemma {:induction false} LexLeTotal(a: string, b: string)
    ensures LexLe(a, b) || LexLe(b, a)
  {
    if a != [] && b != [] && a[0] == b[0] {
      LexLeTotal(a[1..], b[1..]);
    }
  }

  /** Inserts `x` into a sorted list, keeping it sorted. */
  function Insert(x: string, s: seq<string>): (r: seq<string>)
    requires IsSorted(s)
    ensures IsSorted(r)
    ensures multiset(r) == multiset(s) + multiset{x}
  {
    if s == [] then [x]
    else if LexLe(x, s[0]) then
      assert forall j :: 0 < j < |s| ==> LexLe(x, s[j]) by {
        forall j | 0 < j < |s| { LexLeTransitive(x, s[0], s[j]); }
      }
      [x] + s
    else
      LexLeTotal(x, s[0]);
      assert s == [s[0]] + s[1..];
      var t := Insert(x, s[1..]);
      assert forall j :: 0 <= j < |t| ==> LexLe(s[0], t[j]) by {
        forall j | 0 <= j < |t|
          ensures LexLe(s[0], t[j])
        {
          assert t[j] in multiset(t);
        }
      }
      [s[0]] + t
  }

  /** Python's `sorted(s)` for a list of strings: ascending, duplicates kept. */
  function SortStrings(s: seq<string>): (r: seq<string>)
    ensures IsSorted(r)
    ensures multiset(r) == multiset(s)
    ensures |r| == |s|
  {
    if s == [] then []
    else
      assert s == [s[0]] + s[1..];
      Insert(s[0], SortStrings(s[1..]))
  }

  /** Sorting a list that is already sorted gives it back unchanged. */
  lemma {:induction false} SortStringsOfSorted(s: seq<string>)
    requires IsSorted(s)
    ensures SortStrings(s) == s
  {
    if s != [] {
      SortStringsOfSorted(s[1..]);
      assert s == [s[0]] + s[1..];
    }
  }

  /** Every finite non-empty set of strings has a least element. */
  lemma {:induction false} LeastExists(s: set<string>)
    requires s != {}
    ensures exists x :: x in s && IsLeast(x, s)
    decreases |s|
  {
    var y :| y in s;
    if s == {y} {
      LexLeReflexive(y);
      assert IsLeast(y, s);
    } else {
      var rest := s - {y};
      LeastExists(rest);
      var m :| m in rest && IsLeast(m, rest);
      LexLeTotal(m, y);
      if LexLe(m, y) {
        assert IsLeast(m, s);
      } else {
        forall z | z in s ensures LexLe(y, z) {
          if z == y { LexLeReflexive(y); } else { LexLeTransitive(y, m, z); }
        }
      }
    }
  }

  /** A set has at most one least element. */
  lemma LeastUnique(s: set<string>)
    ensures forall x, y :: x in s && IsLeast(x, s) && y in s && IsLeast(y, s) ==> x == y
  {
    forall x, y | x in s && IsLeast(x, s) && y in s && IsLeast(y, s)
      ensures x == y
    {
      LexLeAntisymmetric(x, y);
    }
  }

  /** The least member of a non-empty set. */
  function Least(s: set<string>): (x: string)
    requires s != {}
    ensures x in s && IsLeast(x, s)
  {
    LeastExists(s);
    LeastUnique(s);
    var x :| x in s && IsLeast(x, s);
    x
  }

  /** Python's `sorted(d.keys())`: the members of `s` in ascending order. */
  function SortedElements(s: set<string>): (r: seq<string>)
    ensures IsStrictlySorted(r)
    ensures forall x :: x in r <==> x in s
    ensures |r| == |s|
    decreases |s|
  {
    if s == {} then []
    else
      var x := Least(s);
      var rest := SortedElements(s - {x});
      assert forall j :: 0 <= j < |rest| ==> LexLess(x, rest[j]) by {
        forall j | 0 <= j < |rest| ensures LexLess(x, rest[j]) {
          assert rest[j] in s - {x};
        }
      }
      [x] + rest
  }

  /**
    `sorted(list(keys))` as a step of a method: the keys in ascending order,
    each once. A wrapper of SortedElements, so that a caller's proof sees
    only this contract and not the recursive definition.
   */
  method SortedKeyList(keys: set<string>) returns (r: seq<string>)
    ensures IsStrictlySorted(r)
    ensures forall x :: x in r <==> x in keys
  {
    r := SortedElements(keys);
  }

  /** Two strictly sorted lists with the same members are the same list. */
  lemma {:induction false} StrictlySortedUnique(a: seq<string>, b: seq<string>)
    requires IsStrictlySorted(a) && IsStrictlySorted(b)
    requires forall x :: x in a <==> x in b
    ensures a == b
  {
    assert a != [] ==> a[0] in b;
    assert b != [] ==> b[0] in a;
    if a != [] && b != [] {
      assert a[0] in b && b[0] in a;
      if a[0] != b[0] {
        var i :| 0 <= i < |b| && b[i] == a[0];
        var j :| 0 <= j < |a| && a[j] == b[0];
        assert 0 < i && 0 < j;
        assert LexLess(b[0], b[i]) && LexLess(a[0], a[j]);
        LexLeAntisymmetric(a[0], b[0]);
      }
      forall x ensures x in a[1..] <==> x in b[1..] {
        if x in a[1..] {
          var i :| 0 <= i < |a[1..]| && a[1..][i] == x;
          assert LexLess(a[0], a[i + 1]);
          assert x in b && x != b[0];
          var k :| 0 <= k < |b| && b[k] == x;
          assert b[1..][k - 1] == x;
        }
        if x in b[1..] {
          var i :| 0 <= i < |b[1..]| && b[1..][i] == x;
          assert LexLess(b[0], b[i + 1]);
          assert x in a && x != a[0];
          var k :| 0 <= k < |a| && a[k] == x;
          assert a[1..][k - 1] == x;
        }
      }
      StrictlySortedUnique(a[1..], b[1..]);
      assert a == [a[0]] + a[1..] && b == [b[0]] + b[1..];
    }
  }
}
