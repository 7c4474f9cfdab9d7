/**
 Strings are ordered by code point, as the program's `sorted` orders them, and a set of strings has
 exactly one sorted listing.
 */
module Ordering {

  /** `a` comes strictly before `b`. */
  predicate Below(a: string, b: string)
    decreases |a|
  {
    |b| > 0 && (|a| == 0 || a[0] < b[0] || (a[0] == b[0] && Below(a[1..], b[1..])))
  }

  /** They agree up to some position, and there `a` has the smaller character. */
  ghost predicate SmallerAt(a: string, b: string, i: nat) {
    i < |a| && i < |b| && a[..i] == b[..i] && a[i] < b[i]
  }

  /** A difference behind an equal first character is one of the rests. */
  lemma DifferLater(a: string, b: string, i: nat)
    requires a != "" && b != "" && a[0] == b[0]
    ensures SmallerAt(a, b, i + 1) <==> SmallerAt(a[1..], b[1..], i)
  {
    if i < |a| - 1 && i < |b| - 1 {
      assert a[..i + 1] == [a[0]] + a[1..][..i] && b[..i + 1] == [b[0]] + b[1..][..i];
      if a[..i + 1] == b[..i + 1] { assert a[1..][..i] == a[..i + 1][1..] && b[1..][..i] == b[..i + 1][1..]; }
    }
  }

  /** The first string is a proper prefix, or has the smaller character where they first differ. */
  lemma {:induction false} BelowExactly(a: string, b: string)
    ensures Below(a, b) <==>
            a < b || exists i: nat :: SmallerAt(a, b, i)
    decreases |a|
  {
    if a == "" || b == "" {
    } else {
      BelowExactly(a[1..], b[1..]);
      RestsDecide(a, b);
    }
  }

  /** From what decides between the rests to what decides between the whole strings. */
  lemma RestsDecide(a: string, b: string)
    requires a != "" && b != ""
    requires Below(a[1..], b[1..]) <==> a[1..] < b[1..] || exists i: nat :: SmallerAt(a[1..], b[1..], i)
    ensures Below(a, b) <==> a < b || exists i: nat :: SmallerAt(a, b, i)
  {
    assert a == [a[0]] + a[1..] && b == [b[0]] + b[1..];
    if a[0] == b[0] {
      forall i: nat ensures SmallerAt(a, b, i + 1) <==> SmallerAt(a[1..], b[1..], i) { DifferLater(a, b, i); }
      assert (exists i: nat :: SmallerAt(a[1..], b[1..], i)) ==> exists i: nat :: SmallerAt(a, b, i) by {
        if i: nat :| SmallerAt(a[1..], b[1..], i) { assert SmallerAt(a, b, i + 1); }
      }
      if i: nat :| SmallerAt(a, b, i) { assert SmallerAt(a[1..], b[1..], i - 1); }
    } else if a[0] < b[0] {
      assert SmallerAt(a, b, 0);
    } else {
      forall i: nat ensures !SmallerAt(a, b, i) {
        if i > 0 && i < |a| && i < |b| { assert a[..i][0] == a[0] && b[..i][0] == b[0]; }
      }
    }
  }

  lemma {:induction false} BelowIrreflexive(a: string)
    ensures !Below(a, a)
    decreases |a|
  {
    if a == "" {
    } else {
      BelowIrreflexive(a[1..]);
    }
  }

  lemma {:induction false} BelowTransitive(a: string, b: string, c: string)
    requires Below(a, b) && Below(b, c)
    ensures Below(a, c)
    decreases |a|
  {
    if |a| > 0 && a[0] == b[0] && b[0] == c[0] { BelowTransitive(a[1..], b[1..], c[1..]); }
  }

  lemma {:induction false} BelowTotal(a: string, b: string)
    ensures a == b || Below(a, b) || Below(b, a)
    decreases |a|
  {
    if |a| > 0 && |b| > 0 && a[0] == b[0] {
      BelowTotal(a[1..], b[1..]);
      assert a == [a[0]] + a[1..] && b == [b[0]] + b[1..];
    }
  }

  /** `m` is the first string of `s`. */
  predicate IsLeast(m: string, s: set<string>) {
    m in s && forall x | x in s :: x == m || Below(m, x)
  }

  lemma {:induction false} LeastExists(s: set<string>)
    requires s != {}
    ensures exists m :: IsLeast(m, s)
  {
    var x :| x in s;
    var rest := s - {x};
    if rest == {} {
      assert s == {x};
      assert IsLeast(x, s);
    } else {
      LeastExists(rest);
      var m :| IsLeast(m, rest);
      BelowTotal(x, m);
      if Below(x, m) {
        forall y | y in s ensures y == x || Below(x, y) {
          if y != x && y != m { BelowTransitive(x, m, y); }
        }
        assert IsLeast(x, s);
      } else {
        assert IsLeast(m, s);
      }
    }
  }

  lemma LeastUnique(m: string, n: string, s: set<string>)
    requires IsLeast(m, s) && IsLeast(n, s)
    ensures m == n
  {
    if m != n {
      BelowTransitive(m, n, m);
      BelowIrreflexive(m);
    }
  }

  function Least(s: set<string>): (m: string)
    requires s != {}
    ensures IsLeast(m, s)
  {
    LeastExists(s);
    assert forall m, n | IsLeast(m, s) && IsLeast(n, s) :: m == n by {
      forall m, n | IsLeast(m, s) && IsLeast(n, s) ensures m == n { LeastUnique(m, n, s); }
    }
    var m :| m in s && IsLeast(m, s);
    m
  }

  /** Strictly ascending, hence without repetition. */
  predicate Ascending(s: seq<string>) {
    forall i, j | 0 <= i < j < |s| :: Below(s[i], s[j])
  }

  function Elements<T>(s: seq<T>): set<T> {
    set x | x in s
  }

  predicate NoDuplicates<T(==)>(s: seq<T>) {
    forall i, j | 0 <= i < j < |s| :: s[i] != s[j]
  }

  lemma AscendingHasNoDuplicates(s: seq<string>)
    requires Ascending(s)
    ensures NoDuplicates(s)
  {
    forall i, j | 0 <= i < j < |s| ensures s[i] != s[j] { BelowIrreflexive(s[i]); }
  }

  /** The sorted listing of a set: exactly its members, in ascending order. */
  function SortedSet(s: set<string>): (r: seq<string>)
    ensures Elements(r) == s
    ensures Ascending(r)
    ensures NoDuplicates(r)
    ensures r == [] <==> s == {}
  {
    if s == {} then [] else
      var m := Least(s);
      var rest := SortedSet(s - {m});
      var r := [m] + rest;
      assert Elements(r) == s by {
        forall x ensures x in Elements(r) <==> x in s {
          assert x in r <==> x == m || x in rest;
          assert x in rest <==> x in Elements(rest);
        }
      }
      assert Ascending(r) by {
        forall j | 0 < j < |r| ensures Below(r[0], r[j]) {
          assert r[j] in Elements(rest);
        }
      }
      AscendingHasNoDuplicates(r);
      r
  }

  /** A loop over a set takes its members in any order. */
  method Pick<T>(s: set<T>) returns (x: T)
    requires s != {}
    ensures x in s
  {
    x :| x in s;
  }

  lemma SomeMember<T>(s: set<T>) returns (x: T)
    requires s != {}
    ensures x in s
  {
    x :| x in s;
  }

  lemma NoElementsNoSequence<T>(s: seq<T>)
    ensures Elements(s) == {} ==> s == []
  {
    if s != [] { assert s[0] in Elements(s); }
  }

  /** Two ascending sequences over the same members are the same sequence. */
  lemma {:induction false} AscendingUnique(a: seq<string>, b: seq<string>)
    requires Ascending(a) && Ascending(b)
    requires Elements(a) == Elements(b)
    ensures a == b
    decreases |a|
  {
    if a == [] {
      NoElementsNoSequence(b);
    } else {
      assert a[0] in Elements(b);
      var i :| 0 <= i < |b| && b[i] == a[0];
      assert b[0] in Elements(a);
      var j :| 0 <= j < |a| && a[j] == b[0];
      if i > 0 {
        assert Below(b[0], a[0]);
        if j == 0 { BelowIrreflexive(a[0]); } else {
          BelowTransitive(a[0], b[0], a[0]);
          BelowIrreflexive(a[0]);
        }
        assert false;
      }
      AscendingHasNoDuplicates(a);
      AscendingHasNoDuplicates(b);
      forall x ensures x in Elements(a[1..]) <==> x in Elements(b[1..]) {
        assert x in a[1..] <==> x in a && x != a[0];
        assert x in b[1..] <==> x in b && x != b[0];
        assert x in Elements(a) <==> x in Elements(b);
      }
      AscendingUnique(a[1..], b[1..]);
      assert a == [a[0]] + a[1..] && b == [b[0]] + b[1..];
    }
  }
}
