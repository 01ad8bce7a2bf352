// What each request about objects and consumers leaves behind and answers,
// field by field, stated on the outcome of the request as a whole.
module Requests {
  import opened Prelude
  import opened Sealing
  import opened Variants
  import D = Directory

  // The failure, if the lookup of a variant fails.
  function Miss(b: D.Book, name: string, sel: Selector): Option<Failure> {
    match Find(At(b.names, name), sel)
    case Ok(_) => None
    case Err(e) => Some(e)
  }

  // The consumers gain entries without a key where they had none; nobody
  // else's entry changes.
  ghost predicate Enrolled(before: D.Entries, after: D.Entries, names: seq<string>) {
    && after.Keys == before.Keys + Elements(names)
    && forall x :: x in after ==> after[x] == if x in before then before[x] else None
  }

  // Creation is refused exactly for a taken name; otherwise the name holds
  // one variant with everything as given.
  lemma CreateLeaves(b: D.Book, now: int, slug: string, value: Blob, usedBy: seq<string>, description: string,
                     tags: seq<string>)
    requires NonEmpty(b.names)
    ensures var (refused, after) := D.Outcome(b, now, D.Create(slug, value, usedBy, description, tags));
            && refused == (if slug in b.names then Some(AlreadyExists) else None)
            && (refused.Some? ==> after == b)
            && (refused.None? ==>
                  && SameElsewhere(b.names, after.names, slug)
                  && Enrolled(b.entries, after.entries, usedBy)
                  && |At(after.names, slug)| == 1
                  && var v := At(after.names, slug)[0];
                     && v.id == SlugId(slug) && v.value == value && v.usedBy == usedBy
                     && v.description == description && v.tags == tags
                     && v.createdAt == now && v.updatedAt == now)
  {
  }

  // Seeding appends one variant, without description and tags, and leaves the
  // directory alone.
  lemma AddVariantLeaves(b: D.Book, now: int, name: string, value: Blob, usedBy: seq<string>, draw: string)
    requires NonEmpty(b.names)
    ensures var (refused, after) := D.Outcome(b, now, D.AddVariant(name, value, usedBy, draw));
            && refused == (if name in b.names then None else Some(NotFound))
            && (refused.Some? ==> after == b)
            && (refused.None? ==>
                  && SameElsewhere(b.names, after.names, name) && after.entries == b.entries
                  && var vs, ws := At(b.names, name), At(after.names, name);
                     && |ws| == |vs| + 1 && ws[..|vs|] == vs
                     && var v := ws[|vs|];
                        && v.id == RandomId(draw) && v.value == value && v.usedBy == usedBy
                        && v.description == "" && v.tags == []
                        && v.createdAt == now && v.updatedAt == now)
  {
  }

  // An update is refused exactly when the variant is not found.
  lemma UpdateLeaves(b: D.Book, now: int, name: string, sel: Selector, value: Blob, tags: Option<seq<string>>,
                     usedBy: Option<seq<string>>)
    requires NonEmpty(b.names)
    ensures var (refused, after) := D.Outcome(b, now, D.Update(name, sel, value, tags, usedBy));
            && refused == Miss(b, name, sel)
            && (refused.Some? ==> after == b)
            && (refused.None? ==>
                  && SameElsewhere(b.names, after.names, name)
                  && Enrolled(b.entries, after.entries, if usedBy.Some? then usedBy.value else [])
                  && var i, vs, ws := Find(At(b.names, name), sel).value, At(b.names, name), At(after.names, name);
                     && |ws| == |vs| && (forall j :: 0 <= j < |vs| && j != i ==> ws[j] == vs[j])
                     && ws[i].value == value && ws[i].updatedAt == now
                     && Some(ws[i].tags) == (if tags.Some? then tags else Some(vs[i].tags))
                     && Some(ws[i].usedBy) == (if usedBy.Some? then usedBy else Some(vs[i].usedBy))
                     && (ws[i].id, ws[i].description, ws[i].createdAt) == (vs[i].id, vs[i].description, vs[i].createdAt))
  {
    D.UpdateOutcome(b, now, name, sel, value, tags, usedBy);
    if Find(At(b.names, name), sel).Ok? {
      UpdateTouchesOneVariant(b.names, now, name, sel, value, tags, usedBy);
    }
  }

  // The name a patched object ends up under.
  function Target(name: string, slug: Option<string>): string {
    if slug.Some? then slug.value else name
  }

  // A patch is refused exactly when the variant is not found or another slug
  // is taken. It moves all variants of the name to the new slug, if any, and
  // changes only what was given, in the addressed one.
  lemma PatchLeaves(b: D.Book, now: int, name: string, sel: Selector, description: Option<string>,
                    slug: Option<string>, tags: Option<seq<string>>)
    requires NonEmpty(b.names)
    ensures var (refused, after) := D.Outcome(b, now, D.Patch(name, sel, description, slug, tags));
            var target := Target(name, slug);
            && refused == (if Miss(b, name, sel).Some? then Miss(b, name, sel)
                           else if target != name && target in b.names then Some(AlreadyExists) else None)
            && (refused.Some? ==> after == b)
            && (refused.None? ==>
                  && after.entries == b.entries
                  && (target != name ==> name !in after.names)
                  && (forall k :: k != name && k != target ==> At(after.names, k) == At(b.names, k))
                  && var i, vs, ws := Find(At(b.names, name), sel).value, At(b.names, name), At(after.names, target);
                     && |ws| == |vs| && (forall j :: 0 <= j < |vs| && j != i ==> ws[j] == vs[j])
                     && HoldingOf(ws[i]) == HoldingOf(vs[i])
                     && ws[i].createdAt == vs[i].createdAt && ws[i].updatedAt == now
                     && Some(ws[i].description) == (if description.Some? then description else Some(vs[i].description))
                     && Some(ws[i].tags) == (if tags.Some? then tags else Some(vs[i].tags)))
  {
  }

  // A delete is refused exactly when the variant is not found. It takes out
  // the addressed variant, keeps the others in order, and the name goes with
  // its last one; the directory stays.
  lemma DeleteLeaves(b: D.Book, now: int, name: string, sel: Selector)
    requires NonEmpty(b.names)
    ensures var (refused, after) := D.Outcome(b, now, D.Delete(name, sel));
            && refused == Miss(b, name, sel)
            && (refused.Some? ==> after == b)
            && (refused.None? ==>
                  && after.entries == b.entries && SameElsewhere(b.names, after.names, name)
                  && (name in after.names <==> |At(b.names, name)| > 1)
                  && var i, vs, ws := Find(At(b.names, name), sel).value, At(b.names, name), At(after.names, name);
                     |ws| == |vs| - 1 &&
                     forall j :: 0 <= j < |vs| && j != i ==> vs[j] == ws[if j < i then j else j - 1])
  {
    if Find(At(b.names, name), sel).Ok? {
      DeleteRemovesOneVariant(b.names, name, sel);
    }
  }

  // A listed consumer cannot be added again; a new one has no key.
  lemma AddConsumerLeaves(b: D.Book, now: int, name: string)
    requires NonEmpty(b.names)
    ensures var (refused, after) := D.Outcome(b, now, D.AddConsumer(name));
            && refused == (if name in b.entries then Some(ConsumerExists) else None)
            && (refused.Some? ==> after == b)
            && (refused.None? ==> after.names == b.names && Enrolled(b.entries, after.entries, [name]))
  {
  }

  // Only the consumers of primary variants were rewritten, and as f says.
  ghost predicate RewrittenBy(n: Names, m: Names, f: seq<string> -> seq<string>)
    requires NonEmpty(n)
  {
    m.Keys == n.Keys &&
    forall k :: k in n ==>
      && |m[k]| == |n[k]| && m[k][1..] == n[k][1..]
      && m[k][0].usedBy == f(n[k][0].usedBy) && m[k][0] == n[k][0].(usedBy := m[k][0].usedBy)
  }

  // Changing a consumer is refused exactly when an unknown one is to be
  // renamed. A rename rewrites every primary's list and merges the entries;
  // without one no object changes.
  lemma UpdateConsumerLeaves(b: D.Book, now: int, name: string, newName: Option<string>, key: Option<string>)
    requires NonEmpty(b.names)
    ensures var (refused, after) := D.Outcome(b, now, D.UpdateConsumer(name, newName, key));
            && refused == (if name !in b.entries && newName.Some? then Some(ConsumerNotFound) else None)
            && (refused.Some? ==> after == b)
            && (refused.None? && newName.None? ==> after.names == b.names)
            && (refused.None? && newName.Some? ==> RewrittenBy(b.names, after.names, D.Renaming(name, newName.value)))
            && (refused.None? ==>
                  var target := Target(name, newName);
                  && after.entries.Keys == b.entries.Keys - {name} + {target}
                  && after.entries[target] == (if key.Some? || name !in b.entries then key
                                               else if target in b.entries && b.entries[target].Some? then b.entries[target]
                                               else b.entries[name])
                  && forall x :: x in b.entries && x != name && x != target ==> after.entries[x] == b.entries[x])
  {
  }

  // Removing a consumer is refused exactly for an unlisted one, and strips it
  // from every primary's list.
  lemma DeleteConsumerLeaves(b: D.Book, now: int, name: string)
    requires NonEmpty(b.names)
    ensures var (refused, after) := D.Outcome(b, now, D.DeleteConsumer(name));
            && refused == (if name in b.entries then None else Some(ConsumerNotFound))
            && (refused.Some? ==> after == b)
            && (refused.None? ==>
                  && after.entries == b.entries - {name}
                  && RewrittenBy(b.names, after.names, D.Removing(name)))
  {
  }
}
