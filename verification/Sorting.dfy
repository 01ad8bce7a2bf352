// Sorting by a string key, as the listings do with a map's keys in whatever
// order the map yields them.
module Sorting {
  import opened Prelude

  predicate SortedBy<T>(s: seq<T>, key: T -> string) {
    forall i, j :: 0 <= i < j < |s| ==> StrLe(key(s[i]), key(s[j]))
  }

  predicate DistinctKeys<T>(s: seq<T>, key: T -> string) {
    forall i, j :: 0 <= i < j < |s| ==> key(s[i]) != key(s[j])
  }

  // One insertion into an already sorted sequence.
  function Insert<T(!new)>(s: seq<T>, x: T, key: T -> string): (r: seq<T>)
    ensures multiset(r) == multiset(s) + multiset{x}
    ensures |r| == |s| + 1
    ensures forall y :: y in r <==> y in s || y == x
  {
    if s == [] || StrLe(key(x), key(s[0])) then [x] + s
    else
      assert s == [s[0]] + s[1..];
      [s[0]] + Insert(s[1..], x, key)
  }

  function Sort<T(!new)>(s: seq<T>, key: T -> string): (r: seq<T>)
    ensures multiset(r) == multiset(s)
    ensures |r| == |s|
    ensures forall x :: x in r <==> x in s
  {
    if s == [] then []
    else
      assert s == s[..|s| - 1] + [s[|s| - 1]];
      Insert(Sort(s[..|s| - 1], key), s[|s| - 1], key)
  }

  lemma SameMembers<T(!new)>(s: seq<T>, t: seq<T>)
    requires multiset(s) == multiset(t)
    ensures |s| == |t|
    ensures forall x :: x in s <==> x in t
  {
    assert |multiset(s)| == |s| && |multiset(t)| == |t|;
    forall x ensures x in s <==> x in t {
      assert x in s <==> x in multiset(s);
      assert x in t <==> x in multiset(t);
    }
  }

  lemma {:induction false} InsertSorted<T(!new)>(s: seq<T>, x: T, key: T -> string)
    requires SortedBy(s, key)
    ensures SortedBy(Insert(s, x, key), key)
  {
    if s != [] && !StrLe(key(x), key(s[0])) {
      StrLeTotal(key(x), key(s[0]));
      var rest := Insert(s[1..], x, key);
      InsertSorted(s[1..], x, key);
      forall y | y in rest ensures StrLe(key(s[0]), key(y)) {
        assert y == x || y in s[1..];
      }
    } else if s != [] {
      forall j | 0 <= j < |s| ensures StrLe(key(x), key(s[j])) {
        if j > 0 { StrLeTransitive(key(x), key(s[0]), key(s[j])); }
      }
    }
  }

  lemma {:induction false} SortSorted<T(!new)>(s: seq<T>, key: T -> string)
    ensures SortedBy(Sort(s, key), key)
  {
    if s != [] {
      SortSorted(s[..|s| - 1], key);
      InsertSorted(Sort(s[..|s| - 1], key), s[|s| - 1], key);
    }
  }

  lemma SortedHeads<T(!new)>(s: seq<T>, t: seq<T>, key: T -> string)
    requires multiset(s) == multiset(t) && s != []
    requires SortedBy(s, key) && SortedBy(t, key)
    requires DistinctKeys(s, key)
    ensures t != [] && s[0] == t[0]
  {
    SameMembers(s, t);
    assert t[0] in t && s[0] in s;
    assert t[0] in s && s[0] in t;
    StrLeReflexive(key(s[0]));
    StrLeReflexive(key(t[0]));
    assert StrLe(key(s[0]), key(t[0])) && StrLe(key(t[0]), key(s[0]));
    StrLeAntisymmetric(key(s[0]), key(t[0]));
  }

  lemma TailElements<T(!new)>(s: seq<T>)
    requires s != []
    ensures multiset(s[1..]) == multiset(s) - multiset{s[0]}
    ensures s == [s[0]] + s[1..]
  {
    assert s == [s[0]] + s[1..];
  }

  // A sorted arrangement of elements with pairwise distinct keys is unique.
  lemma {:induction false} SortedUnique<T(!new)>(s: seq<T>, t: seq<T>, key: T -> string)
    requires multiset(s) == multiset(t)
    requires SortedBy(s, key) && SortedBy(t, key)
    requires DistinctKeys(s, key)
    ensures s == t
  {
    SameMembers(s, t);
    if s != [] {
      SortedHeads(s, t, key);
      TailElements(s);
      TailElements(t);
      SortedUnique(s[1..], t[1..], key);
    }
  }

  // Whatever order the elements were met in, sorting gives one answer.
  lemma SortIgnoresOrder<T(!new)>(s: seq<T>, t: seq<T>, key: T -> string)
    requires multiset(s) == multiset(t)
    requires DistinctKeys(s, key)
    ensures Sort(s, key) == Sort(t, key)
  {
    SortSorted(s, key);
    SortSorted(t, key);
    SortKeepsDistinctKeys(s, key);
    SortedUnique(Sort(s, key), Sort(t, key), key);
  }

  lemma {:induction false} InsertKeepsDistinctKeys<T(!new)>(s: seq<T>, x: T, key: T -> string)
    requires DistinctKeys(s, key)
    requires forall y :: y in s ==> key(y) != key(x)
    ensures DistinctKeys(Insert(s, x, key), key)
  {
    if s != [] && !StrLe(key(x), key(s[0])) {
      var rest := Insert(s[1..], x, key);
      InsertKeepsDistinctKeys(s[1..], x, key);
      forall y | y in rest ensures key(s[0]) != key(y) {
        assert y == x || y in s[1..];
      }
    }
  }

  lemma {:induction false} SortKeepsDistinctKeys<T(!new)>(s: seq<T>, key: T -> string)
    requires DistinctKeys(s, key)
    ensures DistinctKeys(Sort(s, key), key)
  {
    if s != [] {
      var front, last := s[..|s| - 1], s[|s| - 1];
      SortKeepsDistinctKeys(front, key);
      forall y | y in Sort(front, key) ensures key(y) != key(last) {
        var i :| 0 <= i < |front| && front[i] == y;
        assert s[i] == y;
      }
      InsertKeepsDistinctKeys(Sort(front, key), last, key);
    }
  }

  // ---------------------------------------------------- sets of names

  const SELF: string -> string := x => x

  lemma {:induction false} DistinctSameMembers<T(!new)>(s: seq<T>, t: seq<T>)
    requires NoDuplicates(s) && NoDuplicates(t)
    requires forall x :: x in s <==> x in t
    ensures multiset(s) == multiset(t)
  {
    forall x ensures multiset(s)[x] == multiset(t)[x] {
      DistinctMultiplicity(s, x);
      DistinctMultiplicity(t, x);
    }
  }

  lemma {:induction false} DistinctMultiplicity<T(!new)>(s: seq<T>, x: T)
    requires NoDuplicates(s)
    ensures multiset(s)[x] == if x in s then 1 else 0
  {
    if s != [] {
      DistinctMultiplicity(s[1..], x);
      assert s == [s[0]] + s[1..];
    }
  }

  predicate IsLeast(x: string, names: set<string>) {
    x in names && forall y :: y in names ==> StrLe(x, y)
  }

  // A non-empty set of names has a least name, and only one.
  lemma {:induction false} LeastExists(names: set<string>)
    requires names != {}
    ensures exists x :: IsLeast(x, names)
  {
    var z :| z in names;
    StrLeReflexive(z);
    if names == {z} {
      assert IsLeast(z, names);
    } else {
      LeastExists(names - {z});
      var x :| IsLeast(x, names - {z});
      StrLeTotal(x, z);
      if StrLe(z, x) {
        forall y | y in names ensures StrLe(z, y) {
          if y != z { StrLeTransitive(z, x, y); }
        }
        assert IsLeast(z, names);
      } else {
        assert IsLeast(x, names);
      }
    }
  }

  lemma LeastUnique(names: set<string>)
    ensures forall x, y :: IsLeast(x, names) && IsLeast(y, names) ==> x == y
  {
    forall x, y | IsLeast(x, names) && IsLeast(y, names) ensures x == y { StrLeAntisymmetric(x, y); }
  }

  // The names of a set in ascending order.
  function SortedNames(names: set<string>): (r: seq<string>)
    ensures SortedBy(r, SELF) && NoDuplicates(r)
    ensures forall x :: x in r <==> x in names
  {
    if names == {} then []
    else
      LeastExists(names);
      LeastUnique(names);
      var x :| x in names && IsLeast(x, names);
      [x] + SortedNames(names - {x})
  }

  // A duplicate-free ascending sequence of exactly these names is that one.
  lemma SortedNamesUnique(s: seq<string>, names: set<string>)
    requires SortedBy(s, SELF) && NoDuplicates(s)
    requires forall x :: x in s <==> x in names
    ensures s == SortedNames(names)
  {
    DistinctSameMembers(s, SortedNames(names));
    assert forall i, j :: 0 <= i < j < |s| ==> SELF(s[i]) != SELF(s[j]);
    SortedUnique(s, SortedNames(names), SELF);
  }

  lemma SortedNamesSize(names: set<string>)
    ensures |SortedNames(names)| == |names|
  {
    DistinctSize(SortedNames(names));
    assert Elements(SortedNames(names)) == names;
  }

  // How many names of the set come strictly before x.
  ghost function Below(names: set<string>, x: string): (r: set<string>) {
    set y | y in names && y != x && StrLe(y, x)
  }

  lemma RankIsPosition(names: set<string>, i: nat)
    requires i < |SortedNames(names)|
    ensures |Below(names, SortedNames(names)[i])| == i
  {
    var s := SortedNames(names);
    forall y ensures y in Below(names, s[i]) <==> y in s[..i] {
      if y in s[..i] {
        var k :| 0 <= k < i && s[..i][k] == y;
        assert StrLe(SELF(s[k]), SELF(s[i]));
      }
      if y in Below(names, s[i]) {
        var k :| 0 <= k < |s| && s[k] == y;
        if k > i {
          assert StrLe(SELF(s[i]), SELF(s[k]));
          StrLeAntisymmetric(s[i], s[k]);
        }
      }
    }
    assert Below(names, s[i]) == Elements(s[..i]);
    DistinctSize(s[..i]);
  }

  // Keeping the names that satisfy p keeps the order.
  lemma {:induction false} FilterKeepsSorted(s: seq<string>, p: string -> bool)
    requires SortedBy(s, SELF) && NoDuplicates(s)
    ensures SortedBy(Filter(s, p), SELF) && NoDuplicates(Filter(s, p))
  {
    if s != [] {
      var front, last := s[..|s| - 1], s[|s| - 1];
      FilterKeepsSorted(front, p);
      assert s == front + [last];
      FilterSnoc(front, last, p);
      forall x | x in Filter(front, p) ensures StrLe(SELF(x), SELF(last)) && x != last {
        FilterMember(front, p, x);
        var i :| 0 <= i < |front| && front[i] == x;
        assert s[i] == x && StrLe(SELF(s[i]), SELF(s[|s| - 1]));
      }
    }
  }

  lemma FilteredNames(names: set<string>, p: string -> bool)
    ensures Filter(SortedNames(names), p) == SortedNames(set x | x in names && p(x))
  {
    FilterKeepsSorted(SortedNames(names), p);
    forall x { FilterMember(SortedNames(names), p, x); }
    SortedNamesUnique(Filter(SortedNames(names), p), set x | x in names && p(x));
  }
}
