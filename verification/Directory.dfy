// The consumer directory and its link to every object's used_by list:
// enrolment, rename with merge, removal and secret counts. The rename,
// removal and count walks see a name's primary variant only.
module Directory {
  import opened Prelude
  import opened Sealing
  import opened Sorting
  import Tags
  import opened Variants
  import V = Variants

  // A name's registered public key, if it registered one.
  type Entries = map<string, Option<string>>

  // The directory and the objects one consumer operation changes together.
  datatype Book = Book(entries: Entries, names: Names)

  function Enrol(d: Entries, usedBy: seq<string>): (r: Entries)
    ensures r.Keys == d.Keys + Elements(usedBy)
    ensures forall x :: x in r ==> r[x] == if x in d then d[x] else None
  {
    map x | x in d.Keys + (set u | u in usedBy) :: if x in d then d[x] else None
  }

  function Substituted(from: string, to: string): string -> string {
    x => if x == from then to else x
  }

  function RenameUsedBy(usedBy: seq<string>, from: string, to: string): seq<string> {
    Dedup(Map(usedBy, Substituted(from, to)))
  }

  // One more name of the list renamed.
  lemma RenameSnoc(usedBy: seq<string>, i: nat, from: string, to: string)
    requires i < |usedBy|
    ensures var r, name := RenameUsedBy(usedBy[..i], from, to), Substituted(from, to)(usedBy[i]);
            RenameUsedBy(usedBy[..i + 1], from, to) == if name in r then r else r + [name]
  {
    var image := Map(usedBy[..i + 1], Substituted(from, to));
    assert image[..|image| - 1] == Map(usedBy[..i], Substituted(from, to));
  }

  function Renaming(from: string, to: string): seq<string> -> seq<string> {
    list => RenameUsedBy(list, from, to)
  }

  function Removing(name: string): seq<string> -> seq<string> {
    list => RemoveUsedBy(list, name)
  }

  function OtherThan(name: string): string -> bool {
    n => n != name
  }

  function RemoveUsedBy(usedBy: seq<string>, name: string): seq<string> {
    Filter(usedBy, OtherThan(name))
  }

  // Removal drops every occurrence of the name and keeps every occurrence of
  // the others, in order: it works on any two halves of the list separately.
  lemma RemovedList(usedBy: seq<string>, name: string, x: string, n: nat)
    requires n <= |usedBy|
    ensures x in RemoveUsedBy(usedBy, name) <==> x in usedBy && x != name
    ensures multiset(RemoveUsedBy(usedBy, name))[x] == if x == name then 0 else multiset(usedBy)[x]
    ensures RemoveUsedBy(usedBy, name) == RemoveUsedBy(usedBy[..n], name) + RemoveUsedBy(usedBy[n..], name)
  {
    FilterMember(usedBy, OtherThan(name), x);
    FilterMultiplicity(usedBy, OtherThan(name), x);
    assert usedBy == usedBy[..n] + usedBy[n..];
    FilterAppend(usedBy[..n], usedBy[n..], OtherThan(name));
  }

  function OnPrimary(vs: seq<Object>, usedBy: seq<string>): seq<Object>
    requires vs != []
  {
    [vs[0].(usedBy := usedBy)] + vs[1..]
  }

  function RenameIn(n: Names, from: string, to: string): (r: Names)
    requires NonEmpty(n)
    ensures r.Keys == n.Keys
  {
    map k | k in n :: OnPrimary(n[k], RenameUsedBy(n[k][0].usedBy, from, to))
  }

  function RemoveIn(n: Names, name: string): (r: Names)
    requires NonEmpty(n)
    ensures r.Keys == n.Keys
  {
    map k | k in n :: OnPrimary(n[k], RemoveUsedBy(n[k][0].usedBy, name))
  }

  function Register(d: Entries, name: string, key: Option<string>): Entries {
    if key.Some? then d[name := key] else d
  }

  // The key a name keeps when another merges into it: its own wins.
  function MergedKey(d: Entries, from: string, to: string): Option<string>
    requires from in d
  {
    if to in d && d[to].Some? then d[to] else d[from]
  }

  function ChangeConsumer(b: Book, name: string, newName: Option<string>, key: Option<string>): Result<Book>
    requires NonEmpty(b.names)
  {
    var d := b.entries;
    if name !in d then
      if newName.Some? then Err(ConsumerNotFound) else Ok(b.(entries := d[name := key]))
    else if newName.Some? then
      var to := newName.value;
      var moved := (d - {name})[to := MergedKey(d, name, to)];
      Ok(Book(Register(moved, to, key), RenameIn(b.names, name, to)))
    else Ok(b.(entries := Register(d, name, key)))
  }

  function RemoveConsumer(b: Book, name: string): Result<Book>
    requires NonEmpty(b.names)
  {
    if name !in b.entries then Err(ConsumerNotFound)
    else Ok(Book(b.entries - {name}, RemoveIn(b.names, name)))
  }

  // The names whose primary variant lists a consumer.
  function Naming(n: Names, consumer: string): (r: set<string>)
    requires NonEmpty(n)
  {
    set k | k in n && consumer in n[k][0].usedBy
  }

  function SecretCount(n: Names, consumer: string): nat
    requires NonEmpty(n)
  {
    |Naming(n, consumer)|
  }

  // ---------------------------------------------------- the book's requests

  // Every request that changes objects or the directory.
  datatype Op =
    | Create(slug: string, value: Blob, usedBy: seq<string>, description: string, tags: seq<string>)
    | AddVariant(name: string, value: Blob, usedBy: seq<string>, draw: string)
    | Update(name: string, sel: Selector, value: Blob, newTags: Option<seq<string>>, newUsedBy: Option<seq<string>>)
    | Patch(name: string, sel: Selector, newDescription: Option<string>, newSlug: Option<string>, newTags: Option<seq<string>>)
    | Delete(name: string, sel: Selector)
    | AddConsumer(name: string)
    | UpdateConsumer(name: string, newName: Option<string>, key: Option<string>)
    | DeleteConsumer(name: string)

  function WithNames(b: Book, r: Result<Names>): Result<Book> {
    match r
    case Err(e) => Err(e)
    case Ok(n) => Ok(b.(names := n))
  }

  function Enrolled(r: Result<Book>, usedBy: seq<string>): Result<Book> {
    match r
    case Err(e) => Err(e)
    case Ok(b) => Ok(b.(entries := Enrol(b.entries, usedBy)))
  }

  // What a request does, or why it is refused.
  function Try(b: Book, now: int, op: Op): Result<Book>
    requires NonEmpty(b.names)
  {
    match op
    case Create(slug, value, usedBy, description, tags) =>
      Enrolled(WithNames(b, V.Create(b.names, now, slug, value, usedBy, description, tags)), usedBy)
    case AddVariant(name, value, usedBy, draw) => WithNames(b, V.Add(b.names, now, name, value, usedBy, draw))
    case Update(name, sel, value, tags, usedBy) =>
      var r := WithNames(b, V.Update(b.names, now, name, sel, value, tags, usedBy));
      if usedBy.Some? then Enrolled(r, usedBy.value) else r
    case Patch(name, sel, description, slug, tags) =>
      WithNames(b, V.Patch(b.names, now, name, sel, description, slug, tags))
    case Delete(name, sel) => WithNames(b, V.Delete(b.names, name, sel))
    case AddConsumer(name) =>
      if name in b.entries then Err(ConsumerExists) else Ok(b.(entries := b.entries[name := None]))
    case UpdateConsumer(name, newName, key) => ChangeConsumer(b, name, newName, key)
    case DeleteConsumer(name) => RemoveConsumer(b, name)
  }

  // What the caller is told, and the book left behind: a refused request
  // leaves it as it was.
  function Outcome(b: Book, now: int, op: Op): (Option<Failure>, Book)
    requires NonEmpty(b.names)
  {
    match Try(b, now, op)
    case Ok(b') => (None, b')
    case Err(e) => (Some(e), b)
  }

  // An update as the change it makes to each half of the book.
  lemma UpdateOutcome(b: Book, now: int, name: string, sel: Selector, value: Blob, tags: Option<seq<string>>,
                      usedBy: Option<seq<string>>)
    requires NonEmpty(b.names)
    ensures Outcome(b, now, Update(name, sel, value, tags, usedBy)) ==
            match V.Update(b.names, now, name, sel, value, tags, usedBy)
            case Err(e) => (Some(e), b)
            case Ok(n) => (None, Book(if usedBy.Some? then Enrol(b.entries, usedBy.value) else b.entries, n))
  {
  }

  // ------------------------------------------------------ listing the directory

  datatype Entry = Entry(name: string, key: Option<string>, secrets: nat)

  datatype Listing =
    | AllNames(names: seq<string>)
    | OnePage(entries: seq<Entry>, total: int)

  // A 32-bit machine integer holds the value modulo two to the 32nd.
  function Int32(x: int): int {
    (x + 0x8000_0000) % 0x1_0000_0000 - 0x8000_0000
  }

  // Where a page starts, computed in 32-bit arithmetic.
  function Offset(page: int, size: int): int {
    Int32((page - 1) * size)
  }

  function EntryOf(b: Book, name: string): Entry
    requires NonEmpty(b.names)
  {
    Entry(name, if name in b.entries then b.entries[name] else None, SecretCount(b.names, name))
  }

  function EntryFor(b: Book): string -> Entry
    requires NonEmpty(b.names)
  {
    name => EntryOf(b, name)
  }

  function HasSubstring(s: string, t: string): bool {
    t <= s || (s != [] && HasSubstring(s[1..], t))
  }

  // Substring match ignoring case, over ASCII.
  predicate ContainsFolded(name: string, q: string) {
    HasSubstring(Tags.Lower(name), Tags.Lower(q))
  }

  // The query stands at position i of the name, ignoring case.
  predicate OccursAt(name: string, q: string, i: int) {
    0 <= i && i + |q| <= |name| && Tags.SameFolded(name[i..i + |q|], q)
  }

  predicate SubstringAt(s: string, t: string, i: int) {
    0 <= i && i + |t| <= |s| && s[i..i + |t|] == t
  }

  lemma {:induction false} HasSubstringIff(s: string, t: string)
    ensures HasSubstring(s, t) <==> exists i :: SubstringAt(s, t, i)
  {
    if t <= s {
      assert SubstringAt(s, t, 0);
    } else if s != [] {
      HasSubstringIff(s[1..], t);
      if i :| SubstringAt(s[1..], t, i) {
        assert s[1..][i..i + |t|] == s[i + 1..i + 1 + |t|];
        assert SubstringAt(s, t, i + 1);
      }
      if i :| SubstringAt(s, t, i) {
        assert i != 0;
        assert s[1..][i - 1..i - 1 + |t|] == s[i..i + |t|];
        assert SubstringAt(s[1..], t, i - 1);
      }
    }
  }

  lemma ContainsFoldedIff(name: string, q: string)
    ensures ContainsFolded(name, q) <==> exists i :: OccursAt(name, q, i)
  {
    var s, u := Tags.Lower(name), Tags.Lower(q);
    HasSubstringIff(s, u);
    if i :| SubstringAt(s, u, i) {
      assert Tags.Lower(name[i..i + |q|]) == s[i..i + |u|];
      assert OccursAt(name, q, i);
    }
    if i :| OccursAt(name, q, i) {
      assert Tags.Lower(name[i..i + |q|]) == s[i..i + |u|];
      assert SubstringAt(s, u, i);
    }
  }

  function NameMatches(q: Option<string>): string -> bool {
    name => q.Some? ==> ContainsFolded(name, q.value)
  }

  // The matching names, in ascending order.
  function Matched(d: Entries, q: Option<string>): seq<string> {
    Filter(SortedNames(d.Keys), NameMatches(q))
  }

  // Which slice of a list of the given length a page is; none when the slice
  // would be out of bounds.
  function Bounds(length: nat, page: int, size: int): (r: Option<(nat, nat)>)
    ensures r.Some? ==> r.value.0 <= r.value.1 <= length
  {
    var start := Min(Offset(page, size), length);
    var end := Min(start + size, length);
    if 0 <= start <= end then Some((start, end)) else None
  }

  lemma ExactInt32(x: int)
    requires -0x8000_0000 <= x < 0x8000_0000
    ensures Int32(x) == x
  {
  }

  // A page starts where it should as long as that fits 32 bits. Beyond, the
  // product wraps: to another start, or below zero, which is the crash.
  lemma PageStarts(length: nat, page: int, size: int)
    requires 1 <= page && 1 <= size
    ensures var p := (page - 1) * size;
            && (p < 0x8000_0000 ==> Bounds(length, page, size) == Some((Min(p, length), Min(Min(p, length) + size, length))))
            && (Bounds(length, page, size) == None <==> p % 0x1_0000_0000 >= 0x8000_0000)
  {
    NonNegativeProduct(page - 1, size);
    BoundsFrom(length, page, size, (page - 1) * size);
  }

  lemma NonNegativeProduct(a: nat, b: nat)
    ensures a * b >= 0
  {
  }

  lemma BoundsFrom(length: nat, page: int, size: int, p: nat)
    requires 1 <= size && p == (page - 1) * size
    ensures p < 0x8000_0000 ==> Bounds(length, page, size) == Some((Min(p, length), Min(Min(p, length) + size, length)))
    ensures Bounds(length, page, size) == None <==> p % 0x1_0000_0000 >= 0x8000_0000
  {
    WrapsBelowZeroIff(p);
    if p < 0x8000_0000 { ExactInt32(p); }
    assert Offset(page, size) == Int32(p);
  }

  lemma WrapsBelowZeroIff(x: nat)
    ensures Int32(x) < 0 <==> x % 0x1_0000_0000 >= 0x8000_0000
  {
  }

  function PageOf(b: Book, q: Option<string>, page: int, pageSize: int): Result<Listing>
    requires NonEmpty(b.names)
  {
    var matched := Matched(b.entries, q);
    match Bounds(|matched|, page, Min(pageSize, 100))
    case Some((start, end)) => Ok(OnePage(Map(matched[start..end], EntryFor(b)), Int32(|matched|)))
    case None => Err(Crashed)
  }

  // Within range a page is the stretch of the matching names it should be.
  lemma PageOfInRange(b: Book, q: Option<string>, page: int, size: int, first: nat)
    requires NonEmpty(b.names) && 1 <= page && 1 <= size <= 100
    requires first == (page - 1) * size < 0x8000_0000 && |Matched(b.entries, q)| < 0x8000_0000
    ensures var matched := Matched(b.entries, q);
            var start := Min(first, |matched|);
            PageOf(b, q, page, size) ==
            Ok(OnePage(Map(matched[start..Min(start + size, |matched|)], EntryFor(b)), |matched|))
  {
    PageStarts(|Matched(b.entries, q)|, page, size);
    ExactInt32(|Matched(b.entries, q)|);
  }

  function List(b: Book, q: Option<string>, page: Option<int>, pageSize: Option<int>): Result<Listing>
    requires NonEmpty(b.names)
  {
    if q.None? && page.None? && pageSize.None? then Ok(AllNames(SortedNames(b.entries.Keys)))
    else PageOf(b, q, if page.Some? then page.value else 1, if pageSize.Some? then pageSize.value else 20)
  }

  // Without a filter all names are listed; otherwise the first page of twenty
  // unless asked for others, and never more than a hundred entries.
  lemma ListMeans(b: Book, q: Option<string>, page: Option<int>, size: Option<int>)
    requires NonEmpty(b.names)
    ensures List(b, None, None, None) == Ok(AllNames(SortedNames(b.entries.Keys)))
    ensures q.Some? || page.Some? || size.Some? ==> !(List(b, q, page, size).Ok? && List(b, q, page, size).value.AllNames?)
    ensures q.Some? ==> List(b, q, None, size) == List(b, q, Some(1), size)
    ensures q.Some? || page.Some? ==> List(b, q, page, None) == List(b, q, page, Some(20))
    ensures size.Some? && size.value >= 100 ==> List(b, q, page, size) == List(b, q, page, Some(100))
  {
  }

  lemma SortedIsSortedNames(names: seq<string>, all: set<string>)
    requires NoDuplicates(names) && forall x :: x in names <==> x in all
    ensures Sort(names, SELF) == SortedNames(all)
  {
    SortSorted(names, SELF);
    assert forall i, j :: 0 <= i < j < |names| ==> SELF(names[i]) != SELF(names[j]);
    SortKeepsDistinctKeys(names, SELF);
    var r := Sort(names, SELF);
    assert forall i, j :: 0 <= i < j < |r| ==> SELF(r[i]) != SELF(r[j]);
    SortedNamesUnique(r, all);
  }

  lemma {:induction false} FilterAll(s: seq<string>, p: string -> bool)
    requires forall x :: x in s ==> p(x)
    ensures Filter(s, p) == s
  {
    if s != [] {
      FilterAll(s[..|s| - 1], p);
      assert s == s[..|s| - 1] + [s[|s| - 1]];
    }
  }

  // -------------------------------------------------------- list operations

  // Renaming inside one list: no duplicates, exactly the image of the old
  // names, in the order in which the renamed names first occurred.
  lemma RenamedList(usedBy: seq<string>, from: string, to: string)
    ensures var r := RenameUsedBy(usedBy, from, to);
            && NoDuplicates(r)
            && (forall x :: x in r <==>
                  if x == to then to in usedBy || from in usedBy
                  else x in usedBy && x != from)
            && (forall i, j :: 0 <= i < j < |r| ==>
                  var image := Map(usedBy, Substituted(from, to));
                  r[i] in image && r[j] in image && FirstIndex(image, r[i]) < FirstIndex(image, r[j]))
  {
    var image := Map(usedBy, Substituted(from, to));
    var r := RenameUsedBy(usedBy, from, to);
    forall x ensures x in image <==> if x == to then to in usedBy || from in usedBy else x in usedBy && x != from {
      if x in image {
        var i :| 0 <= i < |image| && image[i] == x;
        assert usedBy[i] in usedBy;
      }
      if x == to && from in usedBy {
        var i :| 0 <= i < |usedBy| && usedBy[i] == from;
        assert image[i] == to;
      }
      if x in usedBy && x != from {
        var i :| 0 <= i < |usedBy| && usedBy[i] == x;
        assert image[i] == x;
      }
    }
    forall i, j | 0 <= i < j < |r|
      ensures r[i] in image && r[j] in image && FirstIndex(image, r[i]) < FirstIndex(image, r[j])
    {
      DedupOrder(image, i, j);
    }
  }

  // -------------------------------------------------------- rename and merge

  // Who ends up in the directory after a rename, and with which key: the
  // explicit key, else the target's own, else the renamed name's.
  lemma MergedDirectory(b: Book, from: string, to: string, key: Option<string>)
    requires NonEmpty(b.names)
    requires from != to
    ensures var r := ChangeConsumer(b, from, Some(to), key);
            && (r.Ok? <==> from in b.entries)
            && (r.Ok? ==>
                  && r.value.entries.Keys == b.entries.Keys - {from} + {to}
                  && r.value.entries[to] ==
                     (if key.Some? then key
                      else if to in b.entries && b.entries[to].Some? then b.entries[to]
                      else b.entries[from])
                  && forall x :: x in b.entries && x != from && x != to ==> r.value.entries[x] == b.entries[x])
  {
  }

  // Without a rename, a key given replaces the old one, and a name not yet
  // listed is enrolled; no object changes.
  lemma KeyRegistration(b: Book, name: string, key: Option<string>)
    requires NonEmpty(b.names)
    ensures var r := ChangeConsumer(b, name, None, key);
            && r.Ok? && r.value.names == b.names
            && r.value.entries.Keys == b.entries.Keys + {name}
            && r.value.entries[name] == (if key.Some? || name !in b.entries then key else b.entries[name])
            && forall x :: x in b.entries && x != name ==> r.value.entries[x] == b.entries[x]
  {
  }

  // A consumer can be removed exactly when it is listed; nobody else's entry
  // changes, no object names it any more, and a second removal is refused.
  lemma RemovedDirectory(b: Book, name: string)
    requires NonEmpty(b.names)
    ensures var r := RemoveConsumer(b, name);
            && (r.Ok? <==> name in b.entries)
            && (r.Ok? ==> && r.value.entries.Keys == b.entries.Keys - {name}
                          && (forall x :: x in r.value.entries ==> r.value.entries[x] == b.entries[x])
                          && NonEmpty(r.value.names) && Naming(r.value.names, name) == {}
                          && RemoveConsumer(r.value, name) == Err(ConsumerNotFound))
  {
    if name in b.entries { NamingAfterRemoval(b.names, name, name); }
  }

  // In a closed directory a new consumer, enrolled by its key or by name, can
  // be removed without a trace.
  lemma EnrolThenRemove(b: Book, name: string, key: Option<string>)
    requires NonEmpty(b.names) && Closed(b) && name !in b.entries
    ensures RemoveConsumer(ChangeConsumer(b, name, None, key).value, name) == Ok(b)
    ensures RemoveConsumer(Try(b, 0, AddConsumer(name)).value, name) == Ok(b)
  {
    NobodyNamed(b, name);
    assert b.entries[name := key] - {name} == b.entries;
    assert b.entries[name := None] - {name} == b.entries;
  }

  lemma NobodyNamed(b: Book, name: string)
    requires NonEmpty(b.names) && Closed(b) && name !in b.entries
    ensures RemoveIn(b.names, name) == b.names
  {
    forall k | k in b.names ensures RemoveIn(b.names, name)[k] == b.names[k] {
      var vs := b.names[k];
      assert name !in vs[0].usedBy;
      FilterAll(vs[0].usedBy, OtherThan(name));
      assert [vs[0]] + vs[1..] == vs;
    }
  }

  // There and back: renaming to a name that is not taken and back again
  // restores lists without duplicates, the directory and every count.
  lemma RenameThereAndBack(b: Book, from: string, to: string)
    requires NonEmpty(b.names) && Closed(b) && from in b.entries && to !in b.entries
    requires forall k :: k in b.names ==> NoDuplicates(b.names[k][0].usedBy)
    ensures var there := ChangeConsumer(b, from, Some(to), None).value;
            ChangeConsumer(there, to, Some(from), None) == Ok(b)
  {
    var there := ChangeConsumer(b, from, Some(to), None).value;
    assert (there.entries - {to})[from := b.entries[from]] == b.entries;
    forall k | k in b.names ensures RenameIn(there.names, to, from)[k] == b.names[k] {
      var vs := b.names[k];
      assert to !in vs[0].usedBy;
      ListThereAndBack(vs[0].usedBy, from, to);
      assert [vs[0]] + vs[1..] == vs;
    }
    assert RenameIn(there.names, to, from) == b.names;
  }

  lemma ListThereAndBack(usedBy: seq<string>, from: string, to: string)
    requires NoDuplicates(usedBy) && to !in usedBy
    ensures RenameUsedBy(RenameUsedBy(usedBy, from, to), to, from) == usedBy
  {
    var image := Map(usedBy, Substituted(from, to));
    forall i, j | 0 <= i < j < |image| ensures image[i] != image[j] {
      assert usedBy[i] != usedBy[j] && usedBy[i] in usedBy && usedBy[j] in usedBy;
    }
    DedupOfDistinct(image);
    forall i | 0 <= i < |usedBy| ensures Map(image, Substituted(to, from))[i] == usedBy[i] {
      assert usedBy[i] in usedBy;
    }
    assert Map(image, Substituted(to, from)) == usedBy;
    DedupOfDistinct(usedBy);
  }

  lemma NamingAfterRename(n: Names, from: string, to: string, c: string)
    requires NonEmpty(n)
    requires from != to
    ensures NonEmpty(RenameIn(n, from, to))
    ensures Naming(RenameIn(n, from, to), c) ==
            if c == from then {} else if c == to then Naming(n, from) + Naming(n, to) else Naming(n, c)
  {
    forall k | k in n {
      RenamedList(n[k][0].usedBy, from, to);
    }
  }

  lemma UnionSize<T>(a: set<T>, b: set<T>)
    ensures |a + b| == |a| + |b| - |a * b|
  {
    assert a + b == a + (b - a) && b == (b - a) + a * b;
    assert |a + (b - a)| == |a| + |b - a|;
    assert |(b - a) + a * b| == |b - a| + |a * b|;
  }

  // Merging one consumer into another adds their secret counts, counting once
  // each name that listed both; the old name's drops to nothing and nobody
  // else's moves.
  lemma MergedCounts(n: Names, from: string, to: string, other: string)
    requires NonEmpty(n)
    requires from != to && other != from && other != to
    ensures NonEmpty(RenameIn(n, from, to))
    ensures SecretCount(RenameIn(n, from, to), to) ==
            SecretCount(n, from) + SecretCount(n, to) - |Naming(n, from) * Naming(n, to)|
    ensures SecretCount(RenameIn(n, from, to), from) == 0
    ensures SecretCount(RenameIn(n, from, to), other) == SecretCount(n, other)
  {
    NamingAfterRename(n, from, to, from);
    NamingAfterRename(n, from, to, to);
    NamingAfterRename(n, from, to, other);
    UnionSize(Naming(n, from), Naming(n, to));
  }

  // Removing a consumer strips it everywhere and touches nobody else.
  lemma NamingAfterRemoval(n: Names, name: string, c: string)
    requires NonEmpty(n)
    ensures NonEmpty(RemoveIn(n, name))
    ensures Naming(RemoveIn(n, name), c) == if c == name then {} else Naming(n, c)
  {
    var r: Names := RemoveIn(n, name);
    forall k | k in n ensures c in r[k][0].usedBy <==> c in n[k][0].usedBy && c != name {
      RemovedList(n[k][0].usedBy, name, c, 0);
    }
  }

  // Rewriting used_by lists keeps the variant store sound.
  lemma RewriteStaysSound(n: Names, m: Names, used: set<string>)
    requires V.Sound(n, used) && m.Keys == n.Keys
    requires forall k :: k in n ==> |m[k]| == |n[k]| && forall i :: 0 <= i < |n[k]| ==> m[k][i].id == n[k][i].id
    ensures V.Sound(m, used)
  {
    forall k, i | k in m && 0 <= i < |m[k]| ensures IdDrawn(m[k][i], used) {
      assert IdDrawn(n[k][i], used);
    }
  }

  lemma ChangeStaysSound(b: Book, used: set<string>, name: string, newName: Option<string>, key: Option<string>)
    requires V.Sound(b.names, used)
    ensures var r := ChangeConsumer(b, name, newName, key); r.Ok? ==> V.Sound(r.value.names, used)
  {
    if newName.Some? { RewriteStaysSound(b.names, RenameIn(b.names, name, newName.value), used); }
  }

  lemma RemoveStaysSound(b: Book, used: set<string>, name: string)
    requires V.Sound(b.names, used)
    ensures var r := RemoveConsumer(b, name); r.Ok? ==> V.Sound(r.value.names, used)
  {
    if name in b.entries { RewriteStaysSound(b.names, RemoveIn(b.names, name), used); }
  }

  function Draws(op: Op): set<string> {
    if op.AddVariant? then {op.draw} else {}
  }

  lemma NamesOpStaysSound(b: Book, used: set<string>, now: int, op: Op)
    requires V.Sound(b.names, used) && Draws(op) !! used
    requires op.Create? || op.AddVariant? || op.Update? || op.Patch? || op.Delete?
    ensures var r := Try(b, now, op); r.Ok? ==> V.Sound(r.value.names, used + Draws(op))
  {
    assert used + {} == used;
    match op
    case Create(slug, value, usedBy, description, tags) =>
      V.CreateStaysSound(b.names, used, now, slug, value, usedBy, description, tags);
    case AddVariant(name, value, usedBy, draw) => V.AddStaysSound(b.names, used, now, name, value, usedBy, draw);
    case Update(name, sel, value, tags, usedBy) =>
      V.UpdateStaysSound(b.names, used, now, name, sel, value, tags, usedBy);
    case Patch(name, sel, description, slug, tags) =>
      V.PatchStaysSound(b.names, used, now, name, sel, description, slug, tags);
    case Delete(name, sel) => V.DeleteStaysSound(b.names, used, name, sel);
  }

  // Every request keeps variant lists non-empty and ids distinct.
  lemma OpStaysSound(b: Book, used: set<string>, now: int, op: Op)
    requires V.Sound(b.names, used) && Draws(op) !! used
    ensures var r := Try(b, now, op); r.Ok? ==> V.Sound(r.value.names, used + Draws(op))
  {
    assert used + {} == used;
    match op
    case AddConsumer(_) =>
    case UpdateConsumer(name, newName, key) => ChangeStaysSound(b, used, name, newName, key);
    case DeleteConsumer(name) => RemoveStaysSound(b, used, name);
    case _ => NamesOpStaysSound(b, used, now, op);
  }

  // ------------------------------------------------------------- closure

  // Every consumer an object's primary variant names is in the directory.
  ghost predicate Closed(b: Book) {
    forall k :: k in b.names ==> b.names[k] != [] && Elements(b.names[k][0].usedBy) <= b.entries.Keys
  }

  lemma RenameKeepsClosed(b: Book, name: string, newName: Option<string>, key: Option<string>)
    requires Closed(b)
    ensures var r := ChangeConsumer(b, name, newName, key); r.Ok? ==> Closed(r.value)
  {
    var r := ChangeConsumer(b, name, newName, key);
    if r.Ok? && name in b.entries && newName.Some? {
      var to := newName.value;
      forall k | k in b.names ensures Elements(r.value.names[k][0].usedBy) <= r.value.entries.Keys {
        RenamedList(b.names[k][0].usedBy, name, to);
        assert Elements(b.names[k][0].usedBy) <= b.entries.Keys;
        forall x | x in r.value.names[k][0].usedBy ensures x in r.value.entries {
          if x != to { assert x in Elements(b.names[k][0].usedBy); }
        }
      }
    }
  }

  lemma RemovalKeepsClosed(b: Book, name: string)
    requires Closed(b)
    ensures var r := RemoveConsumer(b, name); r.Ok? ==> Closed(r.value)
  {
    var r := RemoveConsumer(b, name);
    if r.Ok? {
      forall k | k in b.names ensures Elements(r.value.names[k][0].usedBy) <= r.value.entries.Keys {
        assert r.value.names[k][0].usedBy == RemoveUsedBy(b.names[k][0].usedBy, name);
        assert Elements(b.names[k][0].usedBy) <= b.entries.Keys;
        forall x | x in r.value.names[k][0].usedBy ensures x in r.value.entries {
          RemovedList(b.names[k][0].usedBy, name, x, 0);
          assert x in Elements(b.names[k][0].usedBy);
        }
      }
    }
  }
}
