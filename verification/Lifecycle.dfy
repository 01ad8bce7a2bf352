// What one request leaves for the next to find: created and deleted, written
// and listed, registered and looked up.
module Lifecycle {
  import opened Prelude
  import opened Sealing
  import opened Sorting
  import opened Variants
  import opened Machine
  import opened Access
  import opened Cli
  import opened Delivery
  import D = Directory
  import L = Listing
  import R = Requests
  import Tags

  // ------------------------------------------------------ created and deleted

  // A name is created and deleted again: neither is refused, every name is as
  // before, and whoever may read is told that the name does not exist.
  lemma CreatedThenDeleted(s: State, t: int, later: int, slug: string, value: Blob, usedBy: seq<string>,
                           description: string, tags: seq<string>)
    requires Inv(s) && slug !in s.book.names
    ensures var create := Step(t, OnBook(D.Create(slug, value, usedBy, description, tags)));
            var delete := Step(later, OnBook(D.Delete(slug, ANY_VARIANT)));
            var created := Next(s, create);
            && NonEmpty(created.book.names)
            && Refusal(s, create) == None && Refusal(created, delete) == None
            && Next(created, delete).book.names == s.book.names
            && Gone(Next(created, delete), slug)
  {
    var b := s.book;
    var op := D.Create(slug, value, usedBy, description, tags);
    R.CreateLeaves(b, t, slug, value, usedBy, description, tags);
    CreateThenDelete(b.names, t, slug, value, usedBy, description, tags);
    R.DeleteLeaves(D.Outcome(b, t, op).1, later, slug, ANY_VARIANT);
    NothingToRead(s.(book := D.Outcome(D.Outcome(b, t, op).1, later, D.Delete(slug, ANY_VARIANT)).1), slug);
  }

  // Every read of the name that may be made and makes sense finds nothing.
  ghost predicate Gone(s: State, slug: string) {
    forall now: int, credential: string, sel: Selector ::
      ReaderOf(SiteOf(s), now, credential).Ok? && !Ambiguous(sel) ==>
        Get(SiteOf(s), now, credential, slug, sel) == Err(NotFound)
  }

  lemma NothingToRead(s: State, slug: string)
    requires slug !in s.book.names
    ensures Gone(s, slug)
  {
  }

  // Deleting the only variant of a name does that whenever it happens.
  lemma DeletedIsGone(s: State, now: int, slug: string, sel: Selector)
    requires Inv(s) && |At(s.book.names, slug)| == 1 && Find(At(s.book.names, slug), sel).Ok?
    ensures var step := Step(now, OnBook(D.Delete(slug, sel)));
            Refusal(s, step) == None && slug !in Next(s, step).book.names && Gone(Next(s, step), slug)
  {
    R.DeleteLeaves(s.book, now, slug, sel);
    NothingToRead(Next(s, Step(now, OnBook(D.Delete(slug, sel)))), slug);
  }

  // ------------------------------------------------------- written and listed

  // The filters let through what was written for these consumers with these
  // tags: the consumer asked for is one of them, and every tag asked for is
  // one of the tags, in any case.
  ghost predicate AskedFor(usedBy: seq<string>, tags: seq<string>, consumer: string, want: seq<string>) {
    && (consumer == "" || consumer in usedBy)
    && forall x :: x in want ==> exists w :: w in tags && Tags.Lower(w) == Tags.Lower(x)
  }

  lemma ListedIffAskedFor(v: Object, tags: seq<string>, consumer: string, want: seq<string>)
    requires v.tags == Tags.Canonical(tags)
    ensures L.Listed(v, consumer, want) <==> AskedFor(v.usedBy, tags, consumer, want)
  {
    Tags.TagFilterAgrees(tags, want);
    L.ListedMeans(v, consumer, want, [], "");
  }

  // The row shows the object under its name as it was written.
  ghost predicate ShowsWritten(r: L.Row, slug: string, id: ObjectId, usedBy: seq<string>, description: string,
                               tags: seq<string>, updatedAt: int)
  {
    && r.slug == slug && r.id == id && r.usedBy == usedBy && r.description == description && r.updatedAt == updatedAt
    && NoDuplicates(r.tags) && forall x :: x in r.tags <==> exists w :: w in tags && Tags.Lower(w) == x
  }

  lemma RowShows(slug: string, v: Object, tags: seq<string>)
    requires v.tags == Tags.Canonical(tags)
    ensures ShowsWritten(L.RowOf(slug, v), slug, v.id, v.usedBy, v.description, tags, v.updatedAt)
  {
    Tags.CanonicalStable(tags);
    forall x ensures x in v.tags <==> exists w :: w in tags && Tags.Lower(w) == x {
      Tags.CanonicalMembers(tags, x);
    }
  }

  // The tags an injection gives.
  function InitialTags(w: WriteOptions): seq<string> {
    if w.tags.Some? then w.tags.value else []
  }

  // What a successful injection stores.
  lemma InjectedVariant(scheme: Scheme, met: seq<Glance>, s: State, t: int, token: string, id: string, value: Bytes,
                        recipients: seq<string>, usedBy: seq<string>, description: string, w: WriteOptions)
    requires Inv(s) && met != [] && InjectMeets(met, recipients, usedBy, w) == Glance(SiteOf(s), t)
    requires AfterInject(scheme, met, s, t, token, id, value, recipients, usedBy, description, w).Ok?
    ensures var n := AfterInject(scheme, met, s, t, token, id, value, recipients, usedBy, description, w).value.book.names;
            && id in n && |n[id]| == 1
            && var v := n[id][0];
               && v.id == SlugId(id) && v.usedBy == usedBy && v.description == description
               && v.tags == Tags.Canonical(InitialTags(w)) && v.createdAt == t && v.updatedAt == t
  {
    var keys := RecipientsFor(met, token, w.keepReadableCopy, recipients, usedBy).value;
    var blob := Seal(scheme, value, keys).value;
    R.CreateLeaves(s.book, t, id, blob, usedBy, description, TagsFor(InitialTags(w)).value);
  }

  // After an injection a listing holds a row for the name exactly when its
  // filters ask for what was injected, and the row shows it as injected.
  lemma InjectedIsListed(scheme: Scheme, met: seq<Glance>, s: State, t: int, token: string, id: string, value: Bytes,
                         recipients: seq<string>, usedBy: seq<string>, description: string, w: WriteOptions,
                         rows: seq<L.Row>, consumer: string, want: seq<string>)
    requires Inv(s) && met != [] && InjectMeets(met, recipients, usedBy, w) == Glance(SiteOf(s), t)
    requires var r := AfterInject(scheme, met, s, t, token, id, value, recipients, usedBy, description, w);
             r.Ok? && L.IsListing(rows, r.value.book.names, consumer, want)
    ensures (exists r :: r in rows && r.slug == id) <==> AskedFor(usedBy, InitialTags(w), consumer, want)
    ensures forall r :: r in rows && r.slug == id ==>
              ShowsWritten(r, id, SlugId(id), usedBy, description, InitialTags(w), t) && r.createdAt == t
  {
    InjectedVariant(scheme, met, s, t, token, id, value, recipients, usedBy, description, w);
    var n := AfterInject(scheme, met, s, t, token, id, value, recipients, usedBy, description, w).value.book.names;
    OnlyRow(n, rows, consumer, want, id);
    RowShows(id, n[id][0], InitialTags(w));
    ListedIffAskedFor(n[id][0], InitialTags(w), consumer, want);
  }

  // A variant has at most one kind of row, and has it exactly when it passes
  // the filters.
  lemma VariantRow(n: Names, rows: seq<L.Row>, consumer: string, want: seq<string>, slug: string, i: nat)
    requires slug in n && i < |n[slug]| && DistinctIds(n[slug]) && L.IsListing(rows, n, consumer, want)
    ensures (exists r :: IsRow(rows, r, slug, n[slug][i].id)) <==> L.Listed(n[slug][i], consumer, want)
    ensures forall r :: IsRow(rows, r, slug, n[slug][i].id) ==> r == L.RowOf(slug, n[slug][i])
  {
    forall r | IsRow(rows, r, slug, n[slug][i].id)
      ensures r == L.RowOf(slug, n[slug][i]) && L.Listed(n[slug][i], consumer, want)
    {
      L.ListingMembers(n, rows, consumer, want, r);
      var j: nat :| L.Shows(n, r, j) && L.Listed(n[slug][j], consumer, want);
      assert !(i < j) && !(j < i);
    }
    var row := L.RowOf(slug, n[slug][i]);
    if L.Listed(n[slug][i], consumer, want) {
      assert L.Shows(n, row, i);
      L.ListingMembers(n, rows, consumer, want, row);
      assert IsRow(rows, row, slug, n[slug][i].id);
    }
  }

  predicate IsRow(rows: seq<L.Row>, r: L.Row, slug: string, id: ObjectId) {
    r in rows && r.slug == slug && r.id == id
  }

  // A name with one variant has no other rows.
  lemma OnlyRow(n: Names, rows: seq<L.Row>, consumer: string, want: seq<string>, slug: string)
    requires slug in n && |n[slug]| == 1 && L.IsListing(rows, n, consumer, want)
    ensures (exists r :: r in rows && r.slug == slug) <==> L.Listed(n[slug][0], consumer, want)
    ensures forall r :: r in rows && r.slug == slug ==> r == L.RowOf(slug, n[slug][0])
  {
    VariantRow(n, rows, consumer, want, slug, 0);
    forall r | r in rows && r.slug == slug ensures IsRow(rows, r, slug, n[slug][0].id) {
      L.ListingMembers(n, rows, consumer, want, r);
    }
    if L.Listed(n[slug][0], consumer, want) {
      var r :| IsRow(rows, r, slug, n[slug][0].id);
    }
  }

  // What a successful update leaves in the variant it replaces: tags and
  // consumers only change where they are given.
  lemma UpdatedVariant(scheme: Scheme, met: seq<Glance>, s: State, t: int, token: string, id: string, value: Bytes,
                       recipients: seq<string>, w: WriteOptions)
    requires Inv(s) && met != [] && UpdateMeets(met, recipients, w) == Glance(SiteOf(s), t)
    requires AfterUpdate(scheme, met, s, t, token, id, value, recipients, w).Ok?
    ensures var n := AfterUpdate(scheme, met, s, t, token, id, value, recipients, w).value.book.names;
            var found := Find(At(s.book.names, id), Selector(w.variantId, w.consumer));
            && found.Ok? && id in n && |n[id]| == |At(s.book.names, id)|
            && var was, v := At(s.book.names, id)[found.value], n[id][found.value];
               && v.id == was.id && v.description == was.description && v.createdAt == was.createdAt && v.updatedAt == t
               && v.usedBy == (if w.usedBy.Some? then w.usedBy.value else was.usedBy)
               && v.tags == (if w.tags.Some? then Tags.Canonical(w.tags.value) else was.tags)
  {
    var keys := RecipientsFor(met, token, w.keepReadableCopy, recipients, NewConsumers(w)).value;
    var blob := Seal(scheme, value, keys).value;
    R.UpdateLeaves(s.book, t, id, Selector(w.variantId, w.consumer), blob, OptionalTagsFor(w.tags).value, w.usedBy);
  }

  // After an update the variant it replaced is listed exactly when the filters
  // ask for it as updated: with the tags and consumers given or, where none
  // are, those it had.
  lemma UpdatedIsListed(scheme: Scheme, met: seq<Glance>, s: State, t: int, token: string, id: string, value: Bytes,
                        recipients: seq<string>, w: WriteOptions, i: nat, rows: seq<L.Row>, consumer: string,
                        want: seq<string>)
    requires Inv(s) && met != [] && UpdateMeets(met, recipients, w) == Glance(SiteOf(s), t)
    requires Find(At(s.book.names, id), Selector(w.variantId, w.consumer)) == Ok(i)
    requires var r := AfterUpdate(scheme, met, s, t, token, id, value, recipients, w);
             r.Ok? && L.IsListing(rows, r.value.book.names, consumer, want)
    ensures var was := At(s.book.names, id)[i];
            var usedBy := if w.usedBy.Some? then w.usedBy.value else was.usedBy;
            var tags := if w.tags.Some? then w.tags.value else was.tags;
            && ((exists r :: IsRow(rows, r, id, was.id)) <==> AskedFor(usedBy, tags, consumer, want))
            && (forall r :: IsRow(rows, r, id, was.id) ==>
                  && (r.usedBy, r.description) == (usedBy, was.description)
                  && r.createdAt == was.createdAt && r.updatedAt == t
                  && (w.tags.Some? ==> ShowsWritten(r, id, was.id, usedBy, was.description, tags, t))
                  && (w.tags.None? ==> r.tags == was.tags))
  {
    UpdatedVariant(scheme, met, s, t, token, id, value, recipients, w);
    var n := AfterUpdate(scheme, met, s, t, token, id, value, recipients, w).value.book.names;
    VariantRow(n, rows, consumer, want, id, i);
    if w.tags.Some? {
      RowShows(id, n[id][i], w.tags.value);
      ListedIffAskedFor(n[id][i], w.tags.value, consumer, want);
    } else {
      ListedByOwnTags(n[id][i], consumer, want);
    }
  }

  lemma ListedByOwnTags(v: Object, consumer: string, want: seq<string>)
    ensures L.Listed(v, consumer, want) <==> AskedFor(v.usedBy, v.tags, consumer, want)
  {
    L.ListedMeans(v, consumer, want, [], "");
    assert forall h, x :: Tags.SameFolded(h, x) <==> Tags.Lower(h) == Tags.Lower(x);
  }

  // ---------------------------------------------------------- counted and listed

  // With one variant a name, a consumer's secret count in the directory is the
  // number of rows of a listing filtered by that consumer.
  lemma CountIsListing(n: Names, rows: seq<L.Row>, consumer: string)
    requires OnlyPrimaries(n) && consumer != "" && L.IsListing(rows, n, consumer, [])
    ensures |rows| == D.SecretCount(n, consumer)
  {
    L.ListingIsAFunction(n, consumer, [], rows, rows);
    var slugs := Map(rows, L.BY_SLUG);
    forall i, j | 0 <= i < j < |slugs| ensures slugs[i] != slugs[j] {
      assert L.BY_SLUG(rows[i]) != L.BY_SLUG(rows[j]);
    }
    DistinctSize(slugs);
    forall k ensures k in Elements(slugs) <==> k in D.Naming(n, consumer) {
      SlugListedIff(n, rows, consumer, k);
    }
    assert Elements(slugs) == D.Naming(n, consumer);
  }

  lemma SlugListedIff(n: Names, rows: seq<L.Row>, consumer: string, k: string)
    requires OnlyPrimaries(n) && consumer != "" && L.IsListing(rows, n, consumer, [])
    ensures k in Map(rows, L.BY_SLUG) <==> k in n && consumer in n[k][0].usedBy
  {
    SlugHasRow(rows, k);
    if r :| r in rows && r.slug == k {
      L.ListingMembers(n, rows, consumer, [], r);
    }
    if k in n {
      L.ListedMeans(n[k][0], consumer, [], [], "");
      OnlyRow(n, rows, consumer, [], k);
    }
  }

  lemma SlugHasRow(rows: seq<L.Row>, k: string)
    ensures k in Map(rows, L.BY_SLUG) <==> exists r :: r in rows && r.slug == k
  {
    var slugs := Map(rows, L.BY_SLUG);
    if k in slugs {
      var i :| 0 <= i < |slugs| && slugs[i] == k;
      assert rows[i] in rows;
    }
    if r :| r in rows && r.slug == k {
      var i :| 0 <= i < |rows| && rows[i] == r;
      assert slugs[i] == k;
    }
  }

  // An entry of the directory carries the key a lookup of that consumer finds,
  // and the number of rows a listing for it has.
  lemma EntryAgrees(s: State, now: int, token: string, name: string, rows: seq<L.Row>)
    requires Inv(s) && OnlyPrimaries(s.book.names) && MayWrite(SiteOf(s), now, token)
    requires name != "" && name in s.book.entries && L.IsListing(rows, s.book.names, name, [])
    ensures var entry, key := D.EntryOf(s.book, name), ConsumerKey(Glance(SiteOf(s), now), token, name);
            && entry.name == name && entry.secrets == |rows|
            && (entry.key.Some? ==> key == Ok(entry.key.value))
            && (entry.key.None? ==> key == Err(NoConsumerKey(name)))
  {
    CountIsListing(s.book.names, rows, name);
  }

  // ------------------------------------------------------ registered and found

  // A key registered for a consumer is what the next lookup finds, under its
  // new name if it was renamed; and so for the owner's.
  lemma RegisteredIsFound(s: State, t: int, token: string, name: string, newName: Option<string>, key: string, now: int)
    requires Inv(s) && MayWrite(SiteOf(s), now, token)
    ensures var step := Step(t, OnBook(D.UpdateConsumer(name, newName, Some(key))));
            Refusal(s, step) == None ==>
              ConsumerKey(Glance(SiteOf(Next(s, step)), now), token, R.Target(name, newName)) == Ok(key)
    ensures key != "" ==> OwnerKey(Glance(SiteOf(Next(s, Step(t, SetOwner(key)))), now), token) == Ok(key)
  {
    R.UpdateConsumerLeaves(s.book, t, name, newName, Some(key));
  }

  // A consumer that was removed is found no longer, and counts no secrets.
  lemma RemovedIsNotFound(s: State, t: int, token: string, name: string, now: int)
    requires Inv(s) && MayWrite(SiteOf(s), now, token) && name in s.book.entries
    ensures NonEmpty(Next(s, Step(t, OnBook(D.DeleteConsumer(name)))).book.names)
    ensures var step := Step(t, OnBook(D.DeleteConsumer(name)));
            && Refusal(s, step) == None
            && ConsumerKey(Glance(SiteOf(Next(s, step)), now), token, name) == Err(NoConsumerKey(name))
            && D.SecretCount(Next(s, step).book.names, name) == 0
  {
    R.DeleteConsumerLeaves(s.book, t, name);
    D.NamingAfterRemoval(s.book.names, name, name);
  }
}
