// Vocabulary shared by every module: optional values, outcomes, string
// order, stable de-duplication and sorting by a key.
module Prelude {

  datatype Option<+T> = None | Some(value: T)

  // Why a call was refused, on the server or in the client.
  datatype Failure =
    | NotFound
    | AlreadyExists
    | SeveralVariants
    | Unauthorized
    | BadRequest
    | TokenNotFound
    | TokenActive
    | ConsumerNotFound
    | ConsumerExists
    | InvalidFilter
    | Crashed
    | NoConsumerKey(name: string)
    | NoOwnerKey
    | BadRecipient(index: nat)
    | NoRecipients
    | BadIdentity(index: nat)
    | NoMatchingIdentity

  datatype Result<+T> = Ok(value: T) | Err(error: Failure)

  function Min(a: int, b: int): int {
    if a <= b then a else b
  }

  // ---------------------------------------------------------------- strings

  // Byte-wise string order on UTF-8 is code point order.
  predicate StrLe(a: string, b: string) {
    a == [] || (b != [] && (a[0] < b[0] || (a[0] == b[0] && StrLe(a[1..], b[1..]))))
  }

  lemma StrLeReflexive(a: string)
    ensures StrLe(a, a)
  {
    if a != [] { StrLeReflexive(a[1..]); }
  }

  lemma StrLeTotal(a: string, b: string)
    ensures StrLe(a, b) || StrLe(b, a)
  {
    if a != [] && b != [] { StrLeTotal(a[1..], b[1..]); }
  }

  lemma StrLeAntisymmetric(a: string, b: string)
    requires StrLe(a, b) && StrLe(b, a)
    ensures a == b
  {
    if a != [] && b != [] {
      StrLeAntisymmetric(a[1..], b[1..]);
      assert a == [a[0]] + a[1..] && b == [b[0]] + b[1..];
    }
  }

  lemma StrLeTransitive(a: string, b: string, c: string)
    requires StrLe(a, b) && StrLe(b, c)
    ensures StrLe(a, c)
  {
    if a != [] && a[0] == b[0] && b[0] == c[0] {
      StrLeTransitive(a[1..], b[1..], c[1..]);
    }
  }

  // ------------------------------------------------------------- sequences

  predicate NoDuplicates<T(==)>(s: seq<T>) {
    forall i, j :: 0 <= i < j < |s| ==> s[i] != s[j]
  }

  ghost function Elements<T>(s: seq<T>): (r: set<T>) {
    set x | x in s
  }

  // s without the elements that already occur further left.
  function Dedup<T(==,!new)>(s: seq<T>): (r: seq<T>)
    ensures NoDuplicates(r)
    ensures forall x :: x in r <==> x in s
  {
    if s == [] then []
    else
      assert s == s[..|s| - 1] + [s[|s| - 1]];
      var front := Dedup(s[..|s| - 1]);
      var last := s[|s| - 1];
      if last in front then front else front + [last]
  }

  // Where x first occurs in s.
  function FirstIndex<T(==)>(s: seq<T>, x: T): (i: nat)
    requires x in s
    ensures i < |s| && s[i] == x && x !in s[..i]
  {
    if s[0] == x then 0 else 1 + FirstIndex(s[1..], x)
  }

  lemma FirstIndexOfPrefix<T>(s: seq<T>, n: nat, x: T)
    requires n <= |s| && x in s[..n]
    ensures x in s && FirstIndex(s, x) == FirstIndex(s[..n], x)
  {
    var i, j := FirstIndex(s[..n], x), FirstIndex(s, x);
    forall k | 0 <= k < j ensures s[k] != x {
      assert s[..j][k] == s[k];
    }
    forall k | 0 <= k < i ensures s[k] != x {
      assert s[..n][..i][k] == s[k];
    }
  }

  // De-duplication keeps the order of first occurrence.
  lemma {:induction false} DedupOrder<T(!new)>(s: seq<T>, i: nat, j: nat)
    requires i < j < |Dedup(s)|
    ensures Dedup(s)[i] in s && Dedup(s)[j] in s
    ensures FirstIndex(s, Dedup(s)[i]) < FirstIndex(s, Dedup(s)[j])
  {
    var n := |s| - 1;
    var front := Dedup(s[..n]);
    assert front[i] in front;
    FirstIndexOfPrefix(s, n, front[i]);
    if j < |front| {
      DedupOrder(s[..n], i, j);
      assert front[j] in front;
      FirstIndexOfPrefix(s, n, front[j]);
    } else {
      assert front[i] in s[..n] && s[n] !in s[..n];
      assert FirstIndex(s, front[i]) < n;
    }
  }

  lemma {:induction false} DedupOfDistinct<T(!new)>(s: seq<T>)
    requires NoDuplicates(s)
    ensures Dedup(s) == s
  {
    if s != [] {
      DedupOfDistinct(s[..|s| - 1]);
      assert s == s[..|s| - 1] + [s[|s| - 1]];
    }
  }

  function Filter<T>(s: seq<T>, p: T -> bool): (r: seq<T>)
    ensures |r| <= |s|
  {
    if s == [] then []
    else
      var front, last := Filter(s[..|s| - 1], p), s[|s| - 1];
      if p(last) then front + [last] else front
  }

  lemma {:induction false} FilterMember<T(!new)>(s: seq<T>, p: T -> bool, x: T)
    ensures x in Filter(s, p) <==> x in s && p(x)
  {
    if s != [] {
      FilterMember(s[..|s| - 1], p, x);
      assert s == s[..|s| - 1] + [s[|s| - 1]];
    }
  }

  lemma {:induction false} FilterMultiplicity<T(!new)>(s: seq<T>, p: T -> bool, x: T)
    ensures multiset(Filter(s, p))[x] == if p(x) then multiset(s)[x] else 0
  {
    if s != [] {
      FilterMultiplicity(s[..|s| - 1], p, x);
      assert s == s[..|s| - 1] + [s[|s| - 1]];
    }
  }

  lemma FilterSnoc<T(!new)>(s: seq<T>, x: T, p: T -> bool)
    ensures Filter(s + [x], p) == Filter(s, p) + if p(x) then [x] else []
  {
    assert (s + [x])[..|s|] == s;
  }

  // Filtering twice is filtering by both.
  lemma {:induction false} FilterNarrows<T(!new)>(s: seq<T>, p: T -> bool, q: T -> bool, both: T -> bool)
    requires forall x :: x in s ==> (both(x) <==> p(x) && q(x))
    ensures Filter(s, both) == Filter(Filter(s, p), q)
  {
    if s != [] {
      var front, last := s[..|s| - 1], s[|s| - 1];
      FilterNarrows(front, p, q, both);
      assert s == front + [last];
      FilterSnoc(front, last, p);
      FilterSnoc(Filter(front, p), last, q);
    }
  }

  lemma {:induction false} FilterOfAll<T(!new)>(s: seq<T>, p: T -> bool)
    requires forall x :: x in s ==> p(x)
    ensures Filter(s, p) == s
  {
    if s != [] {
      var front := s[..|s| - 1];
      assert s == front + [s[|s| - 1]];
      FilterOfAll(front, p);
    }
  }

  lemma {:induction false} FilterAppend<T(!new)>(s: seq<T>, t: seq<T>, p: T -> bool)
    ensures Filter(s + t, p) == Filter(s, p) + Filter(t, p)
  {
    if t == [] {
      assert s + t == s;
    } else {
      var front, last := t[..|t| - 1], t[|t| - 1];
      calc {
        Filter(s + t, p);
        { assert s + t == (s + front) + [last]; FilterSnoc(s + front, last, p); }
        Filter(s + front, p) + if p(last) then [last] else [];
        { FilterAppend(s, front, p); }
        Filter(s, p) + Filter(front, p) + if p(last) then [last] else [];
        { assert t == front + [last]; FilterSnoc(front, last, p); }
        Filter(s, p) + Filter(t, p);
      }
    }
  }

  function Map<T, U>(s: seq<T>, f: T -> U): (r: seq<U>)
    ensures |r| == |s|
    ensures forall i :: 0 <= i < |s| ==> r[i] == f(s[i])
  {
    seq(|s|, i requires 0 <= i < |s| => f(s[i]))
  }

  lemma SubsetSize<T>(a: set<T>, b: set<T>)
    requires a <= b
    ensures |a| <= |b|
  {
    assert b == a + (b - a);
  }

  lemma {:induction false} DistinctSize<T>(s: seq<T>)
    requires NoDuplicates(s)
    ensures |Elements(s)| == |s|
  {
    if s != [] {
      var front, last := s[..|s| - 1], s[|s| - 1];
      DistinctSize(front);
      assert s == front + [last];
      assert Elements(s) == Elements(front) + {last};
    }
  }
}
