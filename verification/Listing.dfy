// Listing the stored objects, and cutting a list into pages.
module Listing {
  import opened Prelude
  import opened Sorting
  import opened Variants
  import opened Tags

  datatype Row = Row(slug: string, id: ObjectId, usedBy: seq<string>, description: string,
                     tags: seq<string>, createdAt: int, updatedAt: int)

  const BY_SLUG: Row -> string := (r: Row) => r.slug

  predicate Listed(v: Object, usedBy: string, tags: seq<string>) {
    (usedBy == "" || usedBy in v.usedBy) && HasAllTags(v.tags, tags)
  }

  function RowOf(slug: string, v: Object): Row {
    Row(slug, v.id, v.usedBy, v.description, v.tags, v.createdAt, v.updatedAt)
  }

  // What passes the filters, one filter at a time: everything without any; a
  // consumer filter lets through what names the consumer, and a list of tags
  // what carries each of them, in any case.
  lemma ListedMeans(v: Object, usedBy: string, a: seq<string>, b: seq<string>, tag: string)
    ensures Listed(v, "", [])
    ensures usedBy != "" ==> (Listed(v, usedBy, a) <==> Listed(v, "", a) && usedBy in v.usedBy)
    ensures Listed(v, usedBy, a + b) <==> Listed(v, usedBy, a) && Listed(v, usedBy, b)
    ensures Listed(v, "", [tag]) <==> exists have :: have in v.tags && Lower(have) == Lower(tag)
  {
    assert forall w :: w in a + b <==> w in a || w in b;
    assert forall w :: w in [tag] <==> w == tag;
    assert forall have :: SameFolded(have, tag) <==> Lower(have) == Lower(tag);
    if Listed(v, "", [tag]) {
      assert tag in [tag];
      var have :| have in v.tags && SameFolded(have, tag);
    }
  }

  // The rows of one name's variants that pass the filters.
  function RowsOf(slug: string, vs: seq<Object>, usedBy: string, tags: seq<string>): seq<Row> {
    if vs == [] then []
    else
      RowsOf(slug, vs[..|vs| - 1], usedBy, tags) +
      if Listed(vs[|vs| - 1], usedBy, tags) then [RowOf(slug, vs[|vs| - 1])] else []
  }

  // The rows met when the names are visited in the given order.
  ghost function Collected(n: Names, order: seq<string>, usedBy: string, tags: seq<string>): seq<Row> {
    if order == [] then []
    else
      Collected(n, order[..|order| - 1], usedBy, tags) +
      RowsOf(order[|order| - 1], At(n, order[|order| - 1]), usedBy, tags)
  }

  ghost predicate VisitsAll(n: Names, order: seq<string>) {
    NoDuplicates(order) && forall k :: k in order <==> k in n
  }

  // Some visiting order has reached every name that is not still to do.
  ghost predicate Visited(names: set<string>, order: seq<string>, todo: set<string>) {
    todo <= names && NoDuplicates(order) && forall k :: k in order <==> k in names && k !in todo
  }

  lemma VisitNext(names: set<string>, order: seq<string>, todo: set<string>, id: string)
    requires Visited(names, order, todo) && id in todo
    ensures Visited(names, order + [id], todo - {id})
    ensures (order + [id])[..|order|] == order
  {
  }

  // A possible answer: the rows met in some visiting order, sorted by slug.
  ghost predicate IsListing(rows: seq<Row>, n: Names, usedBy: string, tags: seq<string>) {
    exists order :: VisitsAll(n, order) && rows == Sort(Collected(n, order, usedBy, tags), BY_SLUG)
  }

  // The row shows this variant of this name.
  ghost predicate Shows(n: Names, r: Row, i: nat) {
    r.slug in n && i < |n[r.slug]| && r == RowOf(r.slug, n[r.slug][i])
  }

  lemma {:induction false} RowsOfMembers(slug: string, vs: seq<Object>, usedBy: string, tags: seq<string>, r: Row)
    ensures r in RowsOf(slug, vs, usedBy, tags) <==>
            exists i :: 0 <= i < |vs| && Listed(vs[i], usedBy, tags) && r == RowOf(slug, vs[i])
  {
    if vs != [] {
      var front := vs[..|vs| - 1];
      RowsOfMembers(slug, front, usedBy, tags, r);
      assert forall i :: 0 <= i < |front| ==> front[i] == vs[i];
    }
  }

  lemma {:induction false} CollectedMembers(n: Names, order: seq<string>, usedBy: string, tags: seq<string>, r: Row)
    requires forall k :: k in order ==> k in n
    ensures r in Collected(n, order, usedBy, tags) <==>
            r.slug in order && exists i: nat :: Shows(n, r, i) && Listed(n[r.slug][i], usedBy, tags)
  {
    if order != [] {
      var front, last := order[..|order| - 1], order[|order| - 1];
      assert order == front + [last];
      CollectedMembers(n, front, usedBy, tags, r);
      RowsOfMembers(last, n[last], usedBy, tags, r);
      if i :| 0 <= i < |n[last]| && Listed(n[last][i], usedBy, tags) && r == RowOf(last, n[last][i]) {
        assert Shows(n, r, i);
      }
    }
  }

  // A listing holds exactly the rows of the variants that pass the filters,
  // however many a name has.
  lemma ListingMembers(n: Names, rows: seq<Row>, usedBy: string, tags: seq<string>, r: Row)
    requires IsListing(rows, n, usedBy, tags)
    ensures r in rows <==> exists i: nat :: Shows(n, r, i) && Listed(n[r.slug][i], usedBy, tags)
  {
    var order :| VisitsAll(n, order) && rows == Sort(Collected(n, order, usedBy, tags), BY_SLUG);
    CollectedMembers(n, order, usedBy, tags, r);
  }

  lemma {:induction false} CollectedRows(n: Names, order: seq<string>, usedBy: string, tags: seq<string>)
    requires OnlyPrimaries(n) && NoDuplicates(order)
    requires forall k :: k in order ==> k in n
    ensures var c := Collected(n, order, usedBy, tags);
            && DistinctKeys(c, BY_SLUG)
            && forall r :: r in c <==>
                 r.slug in order && Listed(n[r.slug][0], usedBy, tags) && r == RowOf(r.slug, n[r.slug][0])
  {
    if order != [] {
      var front, last := order[..|order| - 1], order[|order| - 1];
      CollectedRows(n, front, usedBy, tags);
      assert order == front + [last];
      var one := RowsOf(last, n[last], usedBy, tags);
      assert n[last][..0] == [] && RowsOf(last, n[last][..0], usedBy, tags) == [];
      assert one == if Listed(n[last][0], usedBy, tags) then [RowOf(last, n[last][0])] else [];
    }
  }

  // With one variant a name, the answer is a function of the state alone:
  // one row for each name that passes the filters, ascending by slug,
  // whatever order the map yields its keys in.
  lemma ListingIsAFunction(n: Names, usedBy: string, tags: seq<string>, a: seq<Row>, b: seq<Row>)
    requires OnlyPrimaries(n)
    requires IsListing(a, n, usedBy, tags) && IsListing(b, n, usedBy, tags)
    ensures a == b
    ensures SortedBy(a, BY_SLUG) && DistinctKeys(a, BY_SLUG)
    ensures forall r :: r in a <==>
              r.slug in n && Listed(n[r.slug][0], usedBy, tags) && r == RowOf(r.slug, n[r.slug][0])
  {
    var o :| VisitsAll(n, o) && a == Sort(Collected(n, o, usedBy, tags), BY_SLUG);
    var p :| VisitsAll(n, p) && b == Sort(Collected(n, p, usedBy, tags), BY_SLUG);
    var c, d := Collected(n, o, usedBy, tags), Collected(n, p, usedBy, tags);
    CollectedRows(n, o, usedBy, tags);
    CollectedRows(n, p, usedBy, tags);
    DistinctSameMembers(c, d);
    SortIgnoresOrder(c, d, BY_SLUG);
    SortSorted(c, BY_SLUG);
    SortKeepsDistinctKeys(c, BY_SLUG);
  }

  // ------------------------------------------------------------------ pages

  const LIST_DEFAULT := 50
  const LIST_MAX := 500

  function PageSize(limit: Option<int>): (n: int)
    ensures 1 <= n <= LIST_MAX
  {
    if limit.Some? && limit.value > 0 then Min(limit.value, LIST_MAX) else LIST_DEFAULT
  }

  function Paged<T>(items: seq<T>, limit: Option<int>, offset: Option<int>): seq<T> {
    var from := if offset.Some? && offset.value > 0 then offset.value else 0;
    var start := Min(from, |items|);
    items[start..Min(start + PageSize(limit), |items|)]
  }

  // A page holds as many of the items from the offset on as were asked for:
  // fifty unless a positive limit is given, and five hundred at most.
  lemma PagedMeans<T>(items: seq<T>, limit: Option<int>, offset: nat)
    ensures var asked := if limit.Some? && limit.value > 0 then Min(limit.value, 500) else 50;
            var page := Paged(items, limit, Some(offset));
            && |page| == (if offset >= |items| then 0 else Min(asked, |items| - offset))
            && forall i :: 0 <= i < |page| ==> page[i] == items[offset + i]
    ensures Paged(items, limit, None) == Paged(items, limit, Some(0))
  {
  }

  // The pages a caller gets by advancing the offset one page size at a time.
  function Pages<T>(items: seq<T>, limit: Option<int>, offset: nat): seq<T>
    decreases |items| - offset
  {
    if offset >= |items| then []
    else Paged(items, limit, Some(offset)) + Pages(items, limit, offset + PageSize(limit))
  }

  // They tile the list, whatever the limit asked for.
  lemma {:induction false} PagesTile<T>(items: seq<T>, limit: Option<int>, offset: nat)
    requires offset <= |items|
    ensures Pages(items, limit, offset) == items[offset..]
    decreases |items| - offset
  {
    var n := PageSize(limit);
    if offset + n < |items| {
      PagesTile(items, limit, offset + n);
      assert items[offset..] == items[offset..offset + n] + items[offset + n..];
    }
  }
}
