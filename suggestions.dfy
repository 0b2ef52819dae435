/**
 * `populateFacultyList`: the distinct, non-empty faculty names of the
 * dataset, sorted, as offered by the selector's suggestion list.
 */
module Suggestions {
  import opened Filtering

  /**
   * The default order of `Array.prototype.sort` on strings: lexicographic by
   * character code, a proper prefix coming first.
   */
  predicate LessEq(a: string, b: string)
    decreases |a|
  {
    a == [] || (b != [] && (a[0] < b[0] || (a[0] == b[0] && LessEq(a[1..], b[1..]))))
  }

  lemma {:induction false} LessEqReflexive(a: string)
    ensures LessEq(a, a)
    decreases |a|
  {
    if a != [] {
      LessEqReflexive(a[1..]);
    }
  }

  lemma {:induction false} LessEqTotal(a: string, b: string)
    ensures LessEq(a, b) || LessEq(b, a)
    decreases |a|
  {
    if a != [] && b != [] && a[0] == b[0] {
      LessEqTotal(a[1..], b[1..]);
    }
  }

  lemma {:induction false} LessEqAntisymmetric(a: string, b: string)
    requires LessEq(a, b) && LessEq(b, a)
    ensures a == b
    decreases |a|
  {
    if a != [] {
      LessEqAntisymmetric(a[1..], b[1..]);
      assert a == [a[0]] + a[1..] && b == [b[0]] + b[1..];
    }
  }

  lemma {:induction false} LessEqTransitive(a: string, b: string, c: string)
    requires LessEq(a, b) && LessEq(b, c)
    ensures LessEq(a, c)
    decreases |a|
  {
    if a != [] && a[0] == b[0] && b[0] == c[0] {
      LessEqTransitive(a[1..], b[1..], c[1..]);
    }
  }

  /** Ordered by `LessEq`, as `sort()` leaves an array. */
  predicate Sorted(s: seq<string>) {
    forall i, j :: 0 <= i < j < |s| ==> LessEq(s[i], s[j])
  }

  /** No string appears twice, as in the spread of a `Set`. */
  predicate Distinct(s: seq<string>) {
    forall i, j :: 0 <= i < j < |s| ==> s[i] != s[j]
  }

  /** The faculty names the suggestion list must offer. */
  ghost function NameSet(data: seq<Record>): set<string> {
    set item | item in data && Truthy(item, NameField) :: item[NameField]
  }

  /**
   * `[...new Set(data.map(item => item["Faculty Name"]).filter(Boolean))]`:
   * each non-empty name once.
   */
  method DistinctNames(data: seq<Record>) returns (names: seq<string>)
    ensures Distinct(names)
    ensures forall x :: x in names <==> x in NameSet(data)
  {
    names := [];
    var i := 0;
    while i < |data|
      invariant 0 <= i <= |data|
      invariant Distinct(names)
      invariant forall x :: x in names <==> x in NameSet(data[..i])
    {
      assert data[..i + 1] == data[..i] + [data[i]];
      var item := data[i];
      if NameField in item {
        var name := item[NameField];
        if name != [] && name !in names {
          names := names + [name];
        }
      }
      i := i + 1;
    }
    assert data[..i] == data;
  }

  /** `facultyNames.sort()`: sorts the array in place by `LessEq` (insertion sort). */
  method SortInPlace(a: array<string>)
    modifies a
    ensures Sorted(a[..])
    ensures multiset(a[..]) == multiset(old(a[..]))
  {
    var i := 0;
    while i < a.Length
      invariant 0 <= i <= a.Length
      invariant forall x, y :: 0 <= x < y < i ==> LessEq(a[x], a[y])
      invariant multiset(a[..]) == multiset(old(a[..]))
    {
      var j := i;
      while j > 0 && !LessEq(a[j - 1], a[j])
        invariant 0 <= j <= i
        invariant forall x, y :: 0 <= x < y <= i && x != j && y != j ==> LessEq(a[x], a[y])
        invariant forall y :: j < y <= i ==> LessEq(a[j], a[y])
        invariant multiset(a[..]) == multiset(old(a[..]))
      {
        LessEqTotal(a[j - 1], a[j]);
        a[j - 1], a[j] := a[j], a[j - 1];
        j := j - 1;
      }
      forall x | 0 <= x < j - 1 ensures LessEq(a[x], a[j]) {
        LessEqTransitive(a[x], a[j - 1], a[j]);
      }
      i := i + 1;
    }
  }

  /** `populateFacultyList(data)`: the suggestion list, each name once, sorted. */
  method PopulateFacultyList(data: seq<Record>) returns (options: seq<string>)
    ensures Sorted(options) && Distinct(options)
    ensures forall x :: x in options <==> x in NameSet(data)
  {
    var names := DistinctNames(data);
    var a := new string[|names|](k requires 0 <= k < |names| => names[k]);
    assert a[..] == names;
    SortInPlace(a);
    options := a[..];
    DistinctPermutation(names, options);
  }

  /** A permutation of a list without repetitions has none either, and the same elements. */
  lemma DistinctPermutation(s: seq<string>, t: seq<string>)
    requires Distinct(s) && multiset(s) == multiset(t)
    ensures Distinct(t)
    ensures forall x :: x in s <==> x in t
  {
    forall x ensures x in s <==> x in t {
      assert x in s <==> x in multiset(s);
    }
    forall i, j | 0 <= i < j < |t| ensures t[i] != t[j] {
      if t[i] == t[j] {
        MultiplicityAtLeastTwo(t, i, j);
        DistinctMultiplicity(s, t[i]);
        assert false;
      }
    }
  }

  /** Two positions holding the same string give it multiplicity at least two. */
  lemma MultiplicityAtLeastTwo(t: seq<string>, i: int, j: int)
    requires 0 <= i < j < |t| && t[i] == t[j]
    ensures multiset(t)[t[i]] >= 2
  {
    assert t == t[..i] + [t[i]] + t[i + 1..j] + [t[j]] + t[j + 1..];
  }

  /** In a list without repetitions every string occurs at most once. */
  lemma {:induction false} DistinctMultiplicity(s: seq<string>, x: string)
    requires Distinct(s)
    ensures multiset(s)[x] <= 1
    decreases |s|
  {
    if s != [] {
      assert s == [s[0]] + s[1..];
      DistinctMultiplicity(s[1..], x);
      if s[0] == x {
        assert x !in s[1..];
      }
    }
  }

  /** In a list without repetitions, the tail holds everything but the head. */
  lemma TailMembership(s: seq<string>, x: string)
    requires Distinct(s) && s != []
    ensures x in s[1..] <==> x in s && x != s[0]
  {
    if x in s && x != s[0] {
      var k :| 0 <= k < |s| && s[k] == x;
      assert s[1..][k - 1] == x;
    }
  }

  /**
   * The suggestion list is determined by the dataset: two sorted lists
   * without repetitions that hold the same names are the same list.
   */
  lemma {:induction false} SortedDistinctUnique(s: seq<string>, t: seq<string>)
    requires Sorted(s) && Distinct(s) && Sorted(t) && Distinct(t)
    requires forall x :: x in s <==> x in t
    ensures s == t
    decreases |s|
  {
    if s != [] {
      assert s[0] in s;
    }
    if t != [] {
      assert t[0] in t;
    }
    if s != [] && t != [] {
      var i :| 0 <= i < |t| && t[i] == s[0];
      var j :| 0 <= j < |s| && s[j] == t[0];
      LessEqReflexive(s[0]);
      LessEqReflexive(t[0]);
      assert LessEq(s[0], s[j]) && LessEq(t[0], t[i]);
      LessEqAntisymmetric(s[0], t[0]);
      forall x ensures x in s[1..] <==> x in t[1..] {
        TailMembership(s, x);
        TailMembership(t, x);
      }
      SortedDistinctUnique(s[1..], t[1..]);
      assert s == [s[0]] + s[1..] && t == [t[0]] + t[1..];
    }
  }
}
