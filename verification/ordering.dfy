/**
 * The order SQLite gives to `ORDER BY <text column>` under its default BINARY collation, and the
 * insertion step the model uses to build an ordered result set row by row.
 */
module Ordering {

  /** `a` sorts at or before `b`: character by character, a proper prefix first. */
  predicate TextLe(a: string, b: string)
  {
    if a == [] then true
    else if b == [] then false
    else if a[0] != b[0] then a[0] < b[0]
    else TextLe(a[1..], b[1..])
  }

  lemma {:induction false} TextLeTotal(a: string, b: string)
    ensures TextLe(a, b) || TextLe(b, a)
  {
    if a != [] && b != [] && a[0] == b[0] {
      TextLeTotal(a[1..], b[1..]);
    }
  }

  lemma {:induction false} TextLeTransitive(a: string, b: string, c: string)
    requires TextLe(a, b) && TextLe(b, c)
    ensures TextLe(a, c)
  {
    if a != [] && b != [] && c != [] && a[0] == b[0] && b[0] == c[0] {
      TextLeTransitive(a[1..], b[1..], c[1..]);
    }
  }

  lemma {:induction false} TextLeAntisymmetric(a: string, b: string)
    requires TextLe(a, b) && TextLe(b, a)
    ensures a == b
  {
    if a != [] && b != [] {
      TextLeAntisymmetric(a[1..], b[1..]);
    }
  }

  /** Key `x` may come before key `y` in an `ASC` (or, with `descending`, a `DESC`) ordering. */
  predicate InOrder(x: string, y: string, descending: bool)
  {
    if descending then TextLe(y, x) else TextLe(x, y)
  }

  lemma InOrderTotal(x: string, y: string, descending: bool)
    ensures InOrder(x, y, descending) || InOrder(y, x, descending)
  {
    TextLeTotal(x, y);
  }

  lemma InOrderTransitive(x: string, y: string, z: string, descending: bool)
    requires InOrder(x, y, descending) && InOrder(y, z, descending)
    ensures InOrder(x, z, descending)
  {
    if descending { TextLeTransitive(z, y, x); } else { TextLeTransitive(x, y, z); }
  }

  /** Every element sorts at or before every later one. */
  ghost predicate SortedBy<T>(s: seq<T>, key: T -> string, descending: bool)
  {
    forall i, j :: 0 <= i < j < |s| ==> InOrder(key(s[i]), key(s[j]), descending)
  }

  /**
   * `s` with `x` placed after every element that may precede it: the position a row takes in the
   * result set when the rows before it are already in order.
   */
  function InsertBy<T>(s: seq<T>, x: T, key: T -> string, descending: bool): (r: seq<T>)
    ensures multiset(r) == multiset(s) + multiset{x}
  {
    if s == [] then [x]
    else if InOrder(key(s[0]), key(x), descending) then
      assert s == [s[0]] + s[1..];
      [s[0]] + InsertBy(s[1..], x, key, descending)
    else [x] + s
  }

  lemma {:induction false} InsertBySorted<T>(s: seq<T>, x: T, key: T -> string, descending: bool)
    requires SortedBy(s, key, descending)
    ensures SortedBy(InsertBy(s, x, key, descending), key, descending)
  {
    var r := InsertBy(s, x, key, descending);
    if s == [] {
    } else if InOrder(key(s[0]), key(x), descending) {
      var rest := InsertBy(s[1..], x, key, descending);
      InsertBySorted(s[1..], x, key, descending);
      assert r == [s[0]] + rest;
      forall j | 0 <= j < |rest|
        ensures InOrder(key(s[0]), key(rest[j]), descending)
      {
        assert rest[j] in multiset(rest);
        if rest[j] != x {
          assert rest[j] in multiset(s[1..]);
          var k :| 0 <= k < |s[1..]| && s[1..][k] == rest[j];
          assert s[k + 1] == rest[j];
        }
      }
    } else {
      InOrderTotal(key(s[0]), key(x), descending);
      assert r == [x] + s;
      forall j | 0 <= j < |s|
        ensures InOrder(key(x), key(s[j]), descending)
      {
        if j > 0 {
          InOrderTransitive(key(x), key(s[0]), key(s[j]), descending);
        }
      }
    }
  }

  /** A result set: exactly the rows of `rows`, each once, in the order of `key`. */
  ghost predicate IsListing<T>(r: seq<T>, rows: set<T>, key: T -> string, descending: bool)
  {
    multiset(r) == multiset(rows) && SortedBy(r, key, descending)
  }

  /** A result set holds one entry per row. */
  lemma {:induction false} ListingSize<T>(r: seq<T>, rows: set<T>, key: T -> string, descending: bool)
    requires IsListing(r, rows, key, descending)
    ensures |r| == |rows|
    ensures forall x :: x in r <==> x in rows
  {
    assert |r| == |multiset(r)| == |multiset(rows)|;
    MultisetOfSetSize(rows);
    forall x
      ensures x in r <==> x in rows
    {
      assert x in r <==> x in multiset(r);
    }
  }

  lemma {:induction false} MultisetOfSetSize<T>(s: set<T>)
    ensures |multiset(s)| == |s|
  {
    if s != {} {
      var x :| x in s;
      MultisetOfSetSize(s - {x});
      assert multiset(s) == multiset(s - {x}) + multiset{x};
    }
  }
}

/** Keeping the rows of a result set that satisfy a condition, in their order. */
module Filtering {
  import opened Ordering

  /** The elements of `s` satisfying `keep`, in the order of `s`. */
  function Where<T>(s: seq<T>, keep: T -> bool): (r: seq<T>)
    ensures |r| <= |s|
    ensures forall i :: 0 <= i < |r| ==> keep(r[i]) && r[i] in s
  {
    if s == [] then []
    else
      var init := Where(s[..|s| - 1], keep);
      if keep(s[|s| - 1]) then init + [s[|s| - 1]] else init
  }

  /**
   * The positions in `s` of the elements `Where` keeps, strictly increasing:
   * the witness that `Where(s, keep)` is `s` with some elements dropped and
   * the rest in the same order.
   */
  ghost function WhereIndices<T>(s: seq<T>, keep: T -> bool): (idx: seq<nat>)
    ensures |idx| == |Where(s, keep)|
    ensures forall k :: 0 <= k < |idx| ==> idx[k] < |s| && Where(s, keep)[k] == s[idx[k]]
    ensures forall k, l :: 0 <= k < l < |idx| ==> idx[k] < idx[l]
  {
    if s == [] then []
    else
      var init := WhereIndices(s[..|s| - 1], keep);
      if keep(s[|s| - 1]) then init + [|s| - 1] else init
  }

  /** Every position whose element passes the test is among the indices. */
  lemma {:induction false} WhereIndicesComplete<T>(s: seq<T>, keep: T -> bool, j: nat)
    requires j < |s| && keep(s[j])
    ensures j in WhereIndices(s, keep)
  {
    var n := |s| - 1;
    if j < n {
      WhereIndicesComplete(s[..n], keep, j);
    }
  }

  /** A test that gives the same answer on every element keeps all of them or none. */
  lemma {:induction false} WhereConstant<T>(s: seq<T>, keep: T -> bool, b: bool)
    requires forall x :: x in s ==> keep(x) == b
    ensures Where(s, keep) == if b then s else []
  {
    if s != [] {
      var front := s[..|s| - 1];
      assert forall x :: x in front ==> x in s;
      WhereConstant(front, keep, b);
      if b {
        assert s == front + [s[|s| - 1]];
      }
    }
  }

  lemma {:induction false} WhereSorted<T>(s: seq<T>, keep: T -> bool, key: T -> string, descending: bool)
    requires SortedBy(s, key, descending)
    ensures SortedBy(Where(s, keep), key, descending)
  {
    var sub := Where(s, keep);
    var idx := WhereIndices(s, keep);
    forall i, j | 0 <= i < j < |sub|
      ensures InOrder(key(sub[i]), key(sub[j]), descending)
    {
      assert sub[i] == s[idx[i]] && sub[j] == s[idx[j]] && idx[i] < idx[j];
    }
  }

  lemma {:induction false} WhereMultiset<T>(s: seq<T>, keep: T -> bool, rows: set<T>)
    requires multiset(s) == multiset(rows)
    ensures multiset(Where(s, keep)) == multiset(set x | x in rows && keep(x))
  {
    var sub := Where(s, keep);
    var kept := set x | x in rows && keep(x);
    forall x
      ensures multiset(sub)[x] == multiset(kept)[x]
    {
      WhereCount(s, keep, x);
      assert x in s <==> x in multiset(s);
    }
  }

  lemma {:induction false} WhereCount<T>(s: seq<T>, keep: T -> bool, x: T)
    ensures multiset(Where(s, keep))[x] == if keep(x) then multiset(s)[x] else 0
  {
    if s != [] {
      var front := s[..|s| - 1];
      WhereCount(front, keep, x);
      assert s == front + [s[|s| - 1]];
    }
  }

  /** Filtering a result set gives the result set of the rows that pass the filter. */
  lemma WhereListing<T>(s: seq<T>, rows: set<T>, keep: T -> bool, key: T -> string, descending: bool)
    requires IsListing(s, rows, key, descending)
    ensures IsListing(Where(s, keep), (set x | x in rows && keep(x)), key, descending)
  {
    WhereSorted(s, keep, key, descending);
    WhereMultiset(s, keep, rows);
  }
}

/** Facts about sets the listing loops need. */
module SetFacts {
  /** A non-empty set has a member to pick. */
  lemma NonEmptyHasMember(s: set<int>)
    requires s != {}
    ensures exists x :: x in s
  {
    if forall x :: x !in s {
      assert false;
    }
  }

  lemma MultisetAddFresh<T>(s: set<T>, x: T)
    requires x !in s
    ensures multiset(s + {x}) == multiset(s) + multiset{x}
  {
    forall y
      ensures multiset(s + {x})[y] == (multiset(s) + multiset{x})[y]
    {
      if y == x {
        assert y in s + {x};
      } else if y in s {
        assert y in s + {x};
      }
    }
  }
}
