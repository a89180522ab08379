/** JavaScript's default `Array.prototype.sort` order on strings: code unit
    by code unit, a proper prefix before the longer string. */
module StringOrder {
  import opened Sequences

  predicate LexLe(a: string, b: string)
    decreases |a|
  {
    a == [] || (b != [] && (a[0] < b[0] || (a[0] == b[0] && LexLe(a[1..], b[1..]))))
  }

  lemma {:induction false} LexLeTotal(a: string, b: string)
    ensures LexLe(a, b) || LexLe(b, a)
    decreases |a|
  {
    if a != [] && b != [] && a[0] == b[0] {
      LexLeTotal(a[1..], b[1..]);
    }
  }

  lemma {:induction false} LexLeAntisymmetric(a: string, b: string)
    requires LexLe(a, b) && LexLe(b, a)
    ensures a == b
    decreases |a|
  {
    if a != [] {
      LexLeAntisymmetric(a[1..], b[1..]);
      assert a == [a[0]] + a[1..] && b == [b[0]] + b[1..];
    }
  }

  lemma {:induction false} LexLeTransitive(a: string, b: string, c: string)
    requires LexLe(a, b) && LexLe(b, c)
    ensures LexLe(a, c)
    decreases |a|
  {
    if a != [] && a[0] == b[0] && b[0] == c[0] {
      LexLeTransitive(a[1..], b[1..], c[1..]);
    }
  }

  lemma {:induction false} LexLeReflexive(a: string)
    ensures LexLe(a, a)
    decreases |a|
  {
    if a != [] {
      LexLeReflexive(a[1..]);
    }
  }

  predicate Sorted(s: seq<string>) {
    forall i, j :: 0 <= i < j < |s| ==> LexLe(s[i], s[j])
  }

  /** Every string placed before a later one is strictly smaller. */
  predicate StrictlySorted(s: seq<string>) {
    forall i, j :: 0 <= i < j < |s| ==> LexLe(s[i], s[j]) && s[i] != s[j]
  }

  function Insert(x: string, s: seq<string>): (r: seq<string>)
    requires Sorted(s)
    ensures Sorted(r)
    ensures multiset(r) == multiset(s) + multiset{x}
  {
    if s == [] then [x]
    else if LexLe(x, s[0]) then
      forall j | 0 <= j < |s| ensures LexLe(x, s[j]) {
        if j > 0 { LexLeTransitive(x, s[0], s[j]); }
      }
      assert s == [s[0]] + s[1..];
      [x] + s
    else
      LexLeTotal(x, s[0]);
      var rest := Insert(x, s[1..]);
      assert s == [s[0]] + s[1..];
      assert forall y :: y in rest ==> y == x || y in s[1..] by {
        forall y | y in rest ensures y == x || y in s[1..] {
          assert y in multiset(rest);
        }
      }
      forall j | 0 <= j < |rest| ensures LexLe(s[0], rest[j]) {
        assert rest[j] in rest;
      }
      assert forall j :: 1 <= j < |[s[0]] + rest| ==> ([s[0]] + rest)[j] == rest[j - 1];
      [s[0]] + rest
  }

  /** `Array.prototype.sort()` with no comparator: a sorted permutation. */
  function Sort(s: seq<string>): (r: seq<string>)
    ensures Sorted(r)
    ensures multiset(r) == multiset(s)
  {
    if s == [] then []
    else
      assert s == [s[0]] + s[1..];
      Insert(s[0], Sort(s[1..]))
  }

  lemma {:induction false} InsertNoDuplicates(x: string, s: seq<string>)
    requires Sorted(s) && NoDuplicates(s) && x !in s
    ensures NoDuplicates(Insert(x, s))
  {
    if s != [] && !LexLe(x, s[0]) {
      InsertNoDuplicates(x, s[1..]);
      var rest := Insert(x, s[1..]);
      assert s[0] !in rest by {
        assert s[0] !in s[1..];
        assert multiset(rest)[s[0]] == 0;
      }
    }
  }

  /** Sorting a sequence without repeated elements repeats none. */
  lemma {:induction false} SortNoDuplicates(s: seq<string>)
    requires NoDuplicates(s)
    ensures NoDuplicates(Sort(s))
  {
    if s != [] {
      SortNoDuplicates(s[1..]);
      assert s[0] !in Sort(s[1..]) by {
        assert s[0] !in s[1..];
        assert multiset(Sort(s[1..]))[s[0]] == 0;
      }
      InsertNoDuplicates(s[0], Sort(s[1..]));
    }
  }

  /** A sorted sequence without repeated elements is strictly sorted. */
  lemma SortedDistinct(s: seq<string>)
    requires Sorted(s)
    requires forall i, j :: 0 <= i < j < |s| ==> s[i] != s[j]
    ensures StrictlySorted(s)
  {
  }

  /** Two strictly sorted sequences holding the same strings are equal: the
      sorted list of a set of strings is determined by the set. */
  lemma {:induction false} StrictlySortedUnique(r: seq<string>, s: seq<string>)
    requires StrictlySorted(r) && StrictlySorted(s)
    requires forall x :: x in r <==> x in s
    ensures r == s
  {
    if r != [] { assert r[0] in s; }
    if s != [] { assert s[0] in r; }
    if r != [] {
      assert r[0] == s[0] by {
        assert s[0] in r && r[0] in s;
        var i :| 0 <= i < |r| && r[i] == s[0];
        var j :| 0 <= j < |s| && s[j] == r[0];
        if i == 0 { LexLeReflexive(r[0]); }
        if j == 0 { LexLeReflexive(s[0]); }
        assert LexLe(r[0], r[i]);
        assert LexLe(s[0], s[j]);
        LexLeAntisymmetric(r[0], s[0]);
      }
      forall x ensures x in r[1..] <==> x in s[1..] {
        if x in r[1..] {
          var i :| 1 <= i < |r| && r[i] == x;
          assert x != r[0];
          assert x in r;
          var k :| 0 <= k < |s| && s[k] == x;
          assert k != 0;
          assert s[1..][k - 1] == x;
        }
        if x in s[1..] {
          var j :| 1 <= j < |s| && s[j] == x;
          assert x != s[0];
          assert x in s;
          var k :| 0 <= k < |r| && r[k] == x;
          assert k != 0;
          assert r[1..][k - 1] == x;
        }
      }
      StrictlySortedUnique(r[1..], s[1..]);
      assert r == [r[0]] + r[1..] && s == [s[0]] + s[1..];
    }
  }
}
