// End to end: whoever a write names can read what was written, for as long as
// nothing else touches it, whatever else the server is asked meanwhile.
module Delivery {
  import opened Prelude
  import opened Sealing
  import opened Variants
  import opened Machine
  import opened Access
  import opened Cli
  import opened Runs
  import D = Directory
  import T = Tokens

  // ------------------------------------------------------- when writes succeed

  // The lookup of a consumer finds a registered key.
  predicate HasKey(g: Glance, token: string, name: string) {
    MayWrite(g.site, g.now, token) && name in g.site.book.entries && g.site.book.entries[name].Some?
  }

  function KeyAt(g: Glance, token: string, name: string): string
    requires HasKey(g, token, name)
  {
    g.site.book.entries[name].value
  }

  // Every name has one when its own request is made.
  ghost predicate AllHaveKeys(met: seq<Glance>, token: string, names: seq<string>)
    requires met != []
  {
    forall i :: 0 <= i < |names| ==> HasKey(MetAt(met, i), token, names[i])
  }

  lemma {:induction false} KeysForMeaning(met: seq<Glance>, token: string, names: seq<string>)
    requires met != []
    ensures var r := KeysFor(met, token, names);
            && (r.Ok? <==> AllHaveKeys(met, token, names))
            && (r.Ok? ==> |r.value| == |names| &&
                          forall i :: 0 <= i < |names| ==> r.value[i] == KeyAt(MetAt(met, i), token, names[i]))
  {
    if names != [] {
      var front, last := names[..|names| - 1], names[|names| - 1];
      KeysForMeaning(met, token, front);
      assert AllHaveKeys(met, token, names) ==> AllHaveKeys(met, token, front);
      assert AllHaveKeys(met, token, front) && HasKey(MetAt(met, |front|), token, last) ==>
             AllHaveKeys(met, token, names);
    }
  }

  // The first consumer without a key is the one a failure names.
  lemma {:induction false} FirstMissingIsNamed(met: seq<Glance>, token: string, names: seq<string>, i: nat)
    requires met != [] && i < |names|
    requires AllHaveKeys(met, token, names[..i]) && !HasKey(MetAt(met, i), token, names[i])
    requires MayWrite(MetAt(met, i).site, MetAt(met, i).now, token)
    ensures KeysFor(met, token, names) == Err(NoConsumerKey(names[i]))
  {
    KeysForMeaning(met, token, names[..i]);
    assert names[..i + 1][..i] == names[..i];
    FirstFailureStands(met, token, names, i + 1);
  }

  // Every key string names a key pair.
  ghost predicate AllParse(scheme: Scheme, keys: seq<string>) {
    forall k :: k in keys ==> scheme.recipient(k).Some?
  }

  // The owner's key can be looked up and sealed to.
  predicate OwnerSealable(scheme: Scheme, g: Glance, token: string) {
    MayWrite(g.site, g.now, token) && g.site.owner != "" && scheme.recipient(g.site.owner).Some?
  }

  // The recipients can be determined and sealed to: those given, or else the
  // named consumers', all have well-formed keys, the owner does if a readable
  // copy is kept, and there is at least one.
  ghost predicate Sealable(scheme: Scheme, met: seq<Glance>, token: string, keep: bool, recipients: seq<string>,
                           usedBy: seq<string>)
    requires met != []
  {
    && (recipients != [] ==> AllParse(scheme, recipients))
    && (recipients == [] ==>
          && AllHaveKeys(met, token, usedBy)
          && forall i :: 0 <= i < |usedBy| ==> scheme.recipient(KeyAt(MetAt(met, i), token, usedBy[i])).Some?)
    && (keep ==> OwnerSealable(scheme, MetAt(met, Lookups(recipients, usedBy)), token))
    && (recipients != [] || usedBy != [] || keep)
  }

  lemma SealsIff(scheme: Scheme, value: Bytes, keys: seq<string>)
    ensures Seal(scheme, value, keys).Ok? <==> AllParse(scheme, keys) && keys != []
  {
    var bad := FirstBad(scheme.recipient, keys);
    assert forall k :: k in keys && bad == |keys| ==> scheme.recipient(k).Some?;
    assert bad < |keys| ==> keys[bad] in keys;
  }

  lemma ConsumerKeysParse(scheme: Scheme, met: seq<Glance>, token: string, names: seq<string>, keys: seq<string>)
    requires met != [] && AllHaveKeys(met, token, names) && |keys| == |names|
    requires forall i :: 0 <= i < |names| ==> keys[i] == KeyAt(MetAt(met, i), token, names[i])
    ensures AllParse(scheme, keys) <==>
            forall i :: 0 <= i < |names| ==> scheme.recipient(KeyAt(MetAt(met, i), token, names[i])).Some?
  {
    forall i | 0 <= i < |names| && AllParse(scheme, keys)
      ensures scheme.recipient(KeyAt(MetAt(met, i), token, names[i])).Some?
    {
      assert keys[i] in keys;
    }
  }

  lemma SealableIff(scheme: Scheme, met: seq<Glance>, token: string, value: Bytes, keep: bool,
                    recipients: seq<string>, usedBy: seq<string>)
    requires met != []
    ensures SealedTo(scheme, value, RecipientsFor(met, token, keep, recipients, usedBy)).Ok? <==>
            Sealable(scheme, met, token, keep, recipients, usedBy)
  {
    KeysForMeaning(met, token, usedBy);
    var chosen := if recipients != [] then Ok(recipients) else KeysFor(met, token, usedBy);
    var owner := MetAt(met, Lookups(recipients, usedBy)).site.owner;
    var r := RecipientsFor(met, token, keep, recipients, usedBy);
    if chosen.Ok? && recipients == [] {
      ConsumerKeysParse(scheme, met, token, usedBy, chosen.value);
    }
    if r.Ok? {
      SealsIff(scheme, value, r.value);
      assert forall k :: k in r.value <==> k in chosen.value || (keep && k == owner);
    }
  }

  // Exactly when an injection goes through.
  lemma InjectSucceedsIff(scheme: Scheme, met: seq<Glance>, token: string, id: string, value: Bytes,
                          recipients: seq<string>, usedBy: seq<string>, description: string, w: WriteOptions)
    requires met != [] && NonEmpty(InjectMeets(met, recipients, usedBy, w).site.book.names)
    ensures var g := InjectMeets(met, recipients, usedBy, w);
            Inject(scheme, met, token, id, value, recipients, usedBy, description, w).Ok? <==>
            && Sealable(scheme, met, token, w.keepReadableCopy, recipients, usedBy)
            && MayWrite(g.site, g.now, token)
            && id != "" && id !in g.site.book.names
            && TagsFor(if w.tags.Some? then w.tags.value else []).Ok?
  {
    SealableIff(scheme, met, token, value, w.keepReadableCopy, recipients, usedBy);
  }

  // And exactly when an update does.
  lemma UpdateSucceedsIff(scheme: Scheme, met: seq<Glance>, token: string, id: string, value: Bytes,
                          recipients: seq<string>, w: WriteOptions)
    requires met != [] && NonEmpty(UpdateMeets(met, recipients, w).site.book.names)
    ensures var g := UpdateMeets(met, recipients, w);
            Cli.Update(scheme, met, token, id, value, recipients, w).Ok? <==>
            && Sealable(scheme, met, token, w.keepReadableCopy, recipients, NewConsumers(w))
            && MayWrite(g.site, g.now, token)
            && (w.variantId.None? || w.consumer == "")
            && Find(At(g.site.book.names, id), Selector(w.variantId, w.consumer)).Ok?
            && (w.tags.Some? ==> TagsFor(w.tags.value).Ok?)
  {
    SealableIff(scheme, met, token, value, w.keepReadableCopy, recipients, NewConsumers(w));
  }

  // ------------------------------------------------- what stays readable

  // The variant a selector finds under the name has this value.
  ghost predicate Stores(s: State, id: string, sel: Selector, value: Blob) {
    var vs := At(s.book.names, id);
    Find(vs, sel).Ok? && vs[Find(vs, sel).value].value == value
  }

  // And lists consumer c.
  ghost predicate Holds(s: State, id: string, sel: Selector, value: Blob, c: string) {
    var vs := At(s.book.names, id);
    Stores(s, id, sel, value) && c in vs[Find(vs, sel).value].usedBy
  }

  // Requests that are about this object.
  predicate Touches(op: Op, id: string) {
    op.OnBook? &&
    match op.book
    case Update(name, _, _, _, _) => name == id
    case Patch(name, _, _, slug, _) => name == id && Moves(name, slug)
    case Delete(name, _) => name == id
    case AddVariant(name, _, _, _) => name == id
    case _ => false
  }

  // Or about this consumer's membership.
  predicate Disturbs(op: Op, id: string, c: string) {
    Touches(op, id) ||
    (op.OnBook? &&
     match op.book
     case UpdateConsumer(name, newName, _) => name == c && newName.Some?
     case DeleteConsumer(name) => name == c
     case _ => false)
  }

  // The same variants in the same places, as far as their readers care.
  ghost predicate SameVariants(vs: seq<Object>, ws: seq<Object>) {
    |vs| == |ws| && forall i :: 0 <= i < |vs| ==> ws[i].id == vs[i].id && ws[i].value == vs[i].value
  }

  // Wherever c was listed it still is.
  ghost predicate StillLists(vs: seq<Object>, ws: seq<Object>, c: string) {
    |vs| == |ws| && forall i :: 0 <= i < |vs| ==> c in vs[i].usedBy ==> c in ws[i].usedBy
  }

  // A selector that does not go by consumer finds the same place.
  lemma SameFind(vs: seq<Object>, ws: seq<Object>, sel: Selector)
    requires sel.consumer == "" && |vs| == |ws| && forall i :: 0 <= i < |vs| ==> ws[i].id == vs[i].id
    ensures Find(ws, sel) == Find(vs, sel)
  {
    FindMeaning(vs, sel);
    FindMeaning(ws, sel);
    assert forall i :: 0 <= i < |vs| ==> (Selects(sel, vs[i]) <==> Selects(sel, ws[i]));
  }

  predicate AboutConsumer(op: D.Op) {
    op.AddConsumer? || op.UpdateConsumer? || op.DeleteConsumer?
  }

  lemma RewriteKeeps(vs: seq<Object>, usedBy: seq<string>, c: string)
    requires vs != []
    ensures SameVariants(vs, D.OnPrimary(vs, usedBy))
    ensures (c in vs[0].usedBy ==> c in usedBy) ==> StillLists(vs, D.OnPrimary(vs, usedBy), c)
  {
  }

  lemma SameKeeps(vs: seq<Object>, c: string)
    ensures SameVariants(vs, vs) && StillLists(vs, vs, c)
  {
  }

  lemma RenameKeeps(b: D.Book, name: string, newName: Option<string>, key: Option<string>, id: string, c: string)
    requires NonEmpty(b.names) && id in b.names
    ensures var r := D.ChangeConsumer(b, name, newName, key);
            r.Ok? ==> SameVariants(b.names[id], At(r.value.names, id)) &&
                      (name != c || newName.None? ==> StillLists(b.names[id], At(r.value.names, id), c))
  {
    SameKeeps(b.names[id], c);
    if newName.Some? {
      var usedBy := b.names[id][0].usedBy;
      D.RenamedList(usedBy, name, newName.value);
      RewriteKeeps(b.names[id], D.RenameUsedBy(usedBy, name, newName.value), c);
    }
  }

  lemma RemovalKeeps(b: D.Book, name: string, id: string, c: string)
    requires NonEmpty(b.names) && id in b.names && name in b.entries
    ensures var after := D.RemoveConsumer(b, name).value.names;
            SameVariants(b.names[id], At(after, id)) && (name != c ==> StillLists(b.names[id], At(after, id), c))
  {
    var usedBy := b.names[id][0].usedBy;
    D.RemovedList(usedBy, name, c, 0);
    RewriteKeeps(b.names[id], D.RemoveUsedBy(usedBy, name), c);
  }

  lemma ConsumerOpKeeps(b: D.Book, now: int, op: D.Op, id: string, c: string)
    requires NonEmpty(b.names) && id in b.names && AboutConsumer(op)
    ensures var after := D.Outcome(b, now, op).1.names;
            && SameVariants(At(b.names, id), At(after, id))
            && (!Disturbs(OnBook(op), id, c) ==> StillLists(At(b.names, id), At(after, id), c))
  {
    SameKeeps(b.names[id], c);
    match op
    case UpdateConsumer(name, newName, key) => RenameKeeps(b, name, newName, key, id, c);
    case DeleteConsumer(name) => if name in b.entries { RemovalKeeps(b, name, id, c); }
    case AddConsumer(_) =>
  }

  lemma PatchKeeps(b: D.Book, now: int, op: D.Op, id: string, c: string)
    requires NonEmpty(b.names) && id in b.names && op.Patch? && op.name == id && !Moves(id, op.newSlug)
    ensures var after := D.Outcome(b, now, op).1.names;
            SameVariants(At(b.names, id), At(after, id)) && StillLists(At(b.names, id), At(after, id), c)
  {
    if Find(At(b.names, id), op.sel).Ok? {
      PatchTouchesOneVariant(b.names, now, id, op.sel, op.newDescription, op.newSlug, op.newTags);
    }
  }

  lemma OtherOpKeeps(b: D.Book, now: int, op: D.Op, id: string)
    requires NonEmpty(b.names) && id in b.names && !Touches(OnBook(op), id)
    requires !AboutConsumer(op) && !(op.Patch? && op.name == id)
    ensures At(D.Outcome(b, now, op).1.names, id) == At(b.names, id)
  {
  }

  lemma StepKeeps(s: State, step: Step, id: string, c: string)
    requires Inv(s) && id in s.book.names && !Touches(step.op, id)
    ensures var vs, ws := At(s.book.names, id), At(Next(s, step).book.names, id);
            SameVariants(vs, ws) && (!Disturbs(step.op, id, c) ==> StillLists(vs, ws, c))
  {
    if step.op.OnBook? {
      var op := step.op.book;
      if AboutConsumer(op) {
        ConsumerOpKeeps(s.book, step.now, op, id, c);
      } else if op.Patch? && op.name == id {
        PatchKeeps(s.book, step.now, op, id, c);
      } else {
        OtherOpKeeps(s.book, step.now, op, id);
      }
    }
  }

  lemma {:induction false} RunKeepsStoring(s: State, t: int, steps: seq<Step>, id: string, sel: Selector, value: Blob)
    requires Inv(s) && IsRun(s, t, steps) && Stores(s, id, sel, value) && sel.consumer == ""
    requires forall i :: 0 <= i < |steps| ==> !Touches(steps[i].op, id)
    ensures Stores(End(s, t, steps), id, sel, value)
    decreases |steps|
  {
    if steps != [] {
      assert !Touches(steps[0].op, id);
      var next := Next(s, steps[0]);
      StepKeepsInv(s, steps[0]);
      StepKeeps(s, steps[0], id, "");
      SameFind(At(s.book.names, id), At(next.book.names, id), sel);
      RunKeepsStoring(next, steps[0].now, steps[1..], id, sel, value);
    }
  }

  lemma {:induction false} RunKeepsHolding(s: State, t: int, steps: seq<Step>, id: string, sel: Selector, value: Blob,
                                           c: string)
    requires Inv(s) && IsRun(s, t, steps) && Holds(s, id, sel, value, c) && sel.consumer == ""
    requires forall i :: 0 <= i < |steps| ==> !Disturbs(steps[i].op, id, c)
    ensures Holds(End(s, t, steps), id, sel, value, c)
    decreases |steps|
  {
    if steps != [] {
      assert !Disturbs(steps[0].op, id, c);
      var next := Next(s, steps[0]);
      StepKeepsInv(s, steps[0]);
      StepKeeps(s, steps[0], id, c);
      SameFind(At(s.book.names, id), At(next.book.names, id), sel);
      RunKeepsHolding(next, steps[0].now, steps[1..], id, sel, value, c);
    }
  }

  // ----------------------------------------------------------- end to end

  // The credential reads everything, or reads as the consumer.
  ghost predicate Opens(s: State, now: int, credential: string, c: string) {
    credential != "" && (MayWrite(SiteOf(s), now, credential) || T.Bearer(s.keys.table, credential, now) == Some(c))
  }

  // So does a configuration by its write token or, where there is none, by
  // its consumer token.
  ghost predicate ReadsFor(s: State, now: int, cfg: Config, c: string) {
    if cfg.token != "" then Opens(s, now, cfg.token, c) else Opens(s, now, cfg.consumerToken, c)
  }

  // An identity list that parses and holds the private half of a key.
  ghost predicate HoldsKey(scheme: Scheme, identities: seq<string>, key: string) {
    FirstBad(scheme.identity, identities) == |identities| && scheme.recipient(key).Some? &&
    exists i :: i in identities && scheme.identity(i) == scheme.recipient(key)
  }

  // What is sealed to a key and stored is read back with that key by every
  // credential that gets at it.
  lemma StoredIsReadable(scheme: Scheme, s: State, now: int, cfg: Config, id: string, sel: Selector, value: Bytes,
                         keys: seq<string>, key: string, identities: seq<string>)
    requires Seal(scheme, value, keys).Ok? && Stores(s, id, sel, Seal(scheme, value, keys).value) && !Ambiguous(sel)
    requires MayWrite(SiteOf(s), now, cfg.token) ||
             exists c :: Holds(s, id, sel, Seal(scheme, value, keys).value, c) && ReadsFor(s, now, cfg, c)
    requires HoldsKey(scheme, identities, key) && key in keys
    ensures GetPlain(scheme, SiteOf(s), now, cfg, id, identities, sel) == Ok(value)
  {
    SealedOpensIff(scheme, value, keys, identities);
    var i :| i in identities && scheme.identity(i) == scheme.recipient(key);
    assert Matches(scheme, keys, identities);
  }

  // The server a successful injection leaves behind is the one its write met,
  // after one step.
  ghost function AfterInject(scheme: Scheme, met: seq<Glance>, s: State, t: int, token: string, id: string, value: Bytes,
                             recipients: seq<string>, usedBy: seq<string>, description: string,
                             w: WriteOptions): (r: Result<State>)
    requires Inv(s) && met != [] && InjectMeets(met, recipients, usedBy, w) == Glance(SiteOf(s), t)
    ensures r.Ok? ==> Inv(r.value)
  {
    match Inject(scheme, met, token, id, value, recipients, usedBy, description, w)
    case Err(e) => Err(e)
    case Ok(b) =>
      var keys := RecipientsFor(met, token, w.keepReadableCopy, recipients, usedBy).value;
      var tags := TagsFor(if w.tags.Some? then w.tags.value else []).value;
      var step := Step(t, OnBook(D.Create(id, Seal(scheme, value, keys).value, usedBy, description, tags)));
      StepKeepsInv(s, step);
      Ok(Next(s, step))
  }

  // And likewise after an update.
  ghost function AfterUpdate(scheme: Scheme, met: seq<Glance>, s: State, t: int, token: string, id: string, value: Bytes,
                             recipients: seq<string>, w: WriteOptions): (r: Result<State>)
    requires Inv(s) && met != [] && UpdateMeets(met, recipients, w) == Glance(SiteOf(s), t)
    ensures r.Ok? ==> Inv(r.value)
  {
    match Cli.Update(scheme, met, token, id, value, recipients, w)
    case Err(e) => Err(e)
    case Ok(b) =>
      var keys := RecipientsFor(met, token, w.keepReadableCopy, recipients, NewConsumers(w)).value;
      var sel := Selector(w.variantId, w.consumer);
      var step := Step(t, OnBook(D.Update(id, sel, Seal(scheme, value, keys).value, OptionalTagsFor(w.tags).value, w.usedBy)));
      StepKeepsInv(s, step);
      Ok(Next(s, step))
  }

  // Those are the states the flows leave behind.
  lemma InjectIsAStep(scheme: Scheme, met: seq<Glance>, s: State, t: int, token: string, id: string, value: Bytes,
                      recipients: seq<string>, usedBy: seq<string>, description: string, w: WriteOptions)
    requires Inv(s) && met != [] && InjectMeets(met, recipients, usedBy, w) == Glance(SiteOf(s), t)
    ensures var r, a := Inject(scheme, met, token, id, value, recipients, usedBy, description, w),
                        AfterInject(scheme, met, s, t, token, id, value, recipients, usedBy, description, w);
            if r.Ok? then a == Ok(s.(book := r.value)) else a == Err(r.error)
  {
    assert s.used + {} == s.used;
  }

  lemma UpdateIsAStep(scheme: Scheme, met: seq<Glance>, s: State, t: int, token: string, id: string, value: Bytes,
                      recipients: seq<string>, w: WriteOptions)
    requires Inv(s) && met != [] && UpdateMeets(met, recipients, w) == Glance(SiteOf(s), t)
    ensures var r, a := Cli.Update(scheme, met, token, id, value, recipients, w),
                        AfterUpdate(scheme, met, s, t, token, id, value, recipients, w);
            if r.Ok? then a == Ok(s.(book := r.value)) else a == Err(r.error)
  {
    assert s.used + {} == s.used;
  }

  // The i-th named consumer had a registered key when it was looked up, and
  // whoever reads for it and holds that key's identity gets the value.
  ghost predicate Readable(scheme: Scheme, met: seq<Glance>, token: string, usedBy: seq<string>, i: nat, end: State,
                           id: string, sel: Selector, value: Bytes, now: int, cfg: Config, identities: seq<string>)
    requires met != [] && i < |usedBy|
  {
    && HasKey(MetAt(met, i), token, usedBy[i])
    && (ReadsFor(end, now, cfg, usedBy[i]) && HoldsKey(scheme, identities, KeyAt(MetAt(met, i), token, usedBy[i])) ==>
          GetPlain(scheme, SiteOf(end), now, cfg, id, identities, sel) == Ok(value))
  }

  // Sealed to the keys of usedBy, held for the i-th of them: readable after
  // any later requests that leave the object and its membership be.
  lemma StaysReadable(scheme: Scheme, met: seq<Glance>, s: State, t: int, token: string, id: string, sel: Selector,
                      value: Bytes, usedBy: seq<string>, keep: bool, steps: seq<Step>, i: nat, now: int, cfg: Config,
                      identities: seq<string>)
    requires Inv(s) && IsRun(s, t, steps) && met != [] && i < |usedBy| && sel.consumer == ""
    requires forall j :: 0 <= j < |steps| ==> !Disturbs(steps[j].op, id, usedBy[i])
    requires var keys := RecipientsFor(met, token, keep, [], usedBy);
             keys.Ok? && Seal(scheme, value, keys.value).Ok? &&
             Holds(s, id, sel, Seal(scheme, value, keys.value).value, usedBy[i])
    ensures Readable(scheme, met, token, usedBy, i, End(s, t, steps), id, sel, value, now, cfg, identities)
  {
    var keys := RecipientsFor(met, token, keep, [], usedBy).value;
    KeysForMeaning(met, token, usedBy);
    RunKeepsHolding(s, t, steps, id, sel, Seal(scheme, value, keys).value, usedBy[i]);
    var end := End(s, t, steps);
    assert keys[i] == KeyAt(MetAt(met, i), token, usedBy[i]);
    if ReadsFor(end, now, cfg, usedBy[i]) && HoldsKey(scheme, identities, keys[i]) {
      StoredIsReadable(scheme, end, now, cfg, id, sel, value, keys, keys[i], identities);
    }
  }

  // A created object is found without a selector, and by its id.
  predicate FindsCreated(id: string, sel: Selector) {
    sel == ANY_VARIANT || sel == Selector(Some(SlugId(id)), "")
  }

  // A selector, not by consumer, of the variant an update replaces. A name
  // with one variant needs none.
  predicate FindsUpdated(vs: seq<Object>, w: WriteOptions, sel: Selector) {
    sel.consumer == "" && Find(vs, sel) == Find(vs, Selector(w.variantId, w.consumer))
  }

  // There always is one: by the variant's id.
  lemma UpdatedIsFound(s: State, id: string, w: WriteOptions)
    requires Inv(s) && Find(At(s.book.names, id), Selector(w.variantId, w.consumer)).Ok?
    ensures var vs := At(s.book.names, id);
            FindsUpdated(vs, w, Selector(Some(vs[Find(vs, Selector(w.variantId, w.consumer)).value].id), ""))
  {
    var vs := At(s.book.names, id);
    var i := Find(vs, Selector(w.variantId, w.consumer)).value;
    FindById(vs, vs[i].id, i);
  }

  // Injecting without explicit recipients: every named consumer, with its own
  // live read token and the key it had registered when it was looked up,
  // reads exactly the injected bytes; still so after any later requests that
  // leave the object and that consumer's membership be.
  lemma {:induction false} InjectedIsReadable(
      scheme: Scheme, met: seq<Glance>, s: State, t: int, token: string, id: string, sel: Selector, value: Bytes,
      usedBy: seq<string>, description: string, w: WriteOptions, steps: seq<Step>, i: nat, now: int, cfg: Config,
      identities: seq<string>)
    requires Inv(s) && met != [] && InjectMeets(met, [], usedBy, w) == Glance(SiteOf(s), t) && FindsCreated(id, sel)
    requires var r := AfterInject(scheme, met, s, t, token, id, value, [], usedBy, description, w);
             r.Ok? && IsRun(r.value, t, steps)
    requires i < |usedBy| && forall j :: 0 <= j < |steps| ==> !Disturbs(steps[j].op, id, usedBy[i])
    ensures var s1 := AfterInject(scheme, met, s, t, token, id, value, [], usedBy, description, w).value;
            Readable(scheme, met, token, usedBy, i, End(s1, t, steps), id, sel, value, now, cfg, identities)
  {
    InjectedIsHeld(scheme, met, s, t, token, id, sel, value, [], usedBy, description, w, usedBy[i]);
    var s1 := AfterInject(scheme, met, s, t, token, id, value, [], usedBy, description, w).value;
    StaysReadable(scheme, met, s1, t, token, id, sel, value, usedBy, w.keepReadableCopy, steps, i, now, cfg, identities);
  }

  // What a successful injection leaves under the name.
  lemma InjectedIsHeld(scheme: Scheme, met: seq<Glance>, s: State, t: int, token: string, id: string, sel: Selector,
                       value: Bytes, recipients: seq<string>, usedBy: seq<string>, description: string, w: WriteOptions,
                       c: string)
    requires Inv(s) && met != [] && InjectMeets(met, recipients, usedBy, w) == Glance(SiteOf(s), t) && FindsCreated(id, sel)
    requires AfterInject(scheme, met, s, t, token, id, value, recipients, usedBy, description, w).Ok?
    ensures var s1 := AfterInject(scheme, met, s, t, token, id, value, recipients, usedBy, description, w).value;
            var keys := RecipientsFor(met, token, w.keepReadableCopy, recipients, usedBy);
            keys.Ok? && Seal(scheme, value, keys.value).Ok? &&
            Stores(s1, id, sel, Seal(scheme, value, keys.value).value) &&
            (c in usedBy ==> Holds(s1, id, sel, Seal(scheme, value, keys.value).value, c))
  {
    var s1 := AfterInject(scheme, met, s, t, token, id, value, recipients, usedBy, description, w).value;
    var vs := s1.book.names[id];
    FindMeaning(vs, sel);
    assert |vs| == 1 && Find(vs, sel) == Ok(0);
  }

  // The same for an update that names consumers, whichever variant of a name
  // it replaces.
  lemma {:induction false} UpdatedIsReadable(
      scheme: Scheme, met: seq<Glance>, s: State, t: int, token: string, id: string, sel: Selector, value: Bytes,
      w: WriteOptions, steps: seq<Step>, i: nat, now: int, cfg: Config, identities: seq<string>)
    requires Inv(s) && met != [] && UpdateMeets(met, [], w) == Glance(SiteOf(s), t)
    requires FindsUpdated(At(s.book.names, id), w, sel)
    requires var r := AfterUpdate(scheme, met, s, t, token, id, value, [], w);
             r.Ok? && IsRun(r.value, t, steps)
    requires i < |NewConsumers(w)| && forall j :: 0 <= j < |steps| ==> !Disturbs(steps[j].op, id, NewConsumers(w)[i])
    ensures var s1 := AfterUpdate(scheme, met, s, t, token, id, value, [], w).value;
            Readable(scheme, met, token, NewConsumers(w), i, End(s1, t, steps), id, sel, value, now, cfg, identities)
  {
    UpdatedIsHeld(scheme, met, s, t, token, id, sel, value, [], w, NewConsumers(w)[i]);
    var s1 := AfterUpdate(scheme, met, s, t, token, id, value, [], w).value;
    StaysReadable(scheme, met, s1, t, token, id, sel, value, NewConsumers(w), w.keepReadableCopy, steps, i, now, cfg,
                  identities);
  }

  // What a successful update leaves in the variant it replaces.
  lemma UpdatedIsHeld(scheme: Scheme, met: seq<Glance>, s: State, t: int, token: string, id: string, sel: Selector,
                      value: Bytes, recipients: seq<string>, w: WriteOptions, c: string)
    requires Inv(s) && met != [] && UpdateMeets(met, recipients, w) == Glance(SiteOf(s), t)
    requires FindsUpdated(At(s.book.names, id), w, sel)
    requires AfterUpdate(scheme, met, s, t, token, id, value, recipients, w).Ok?
    ensures var s1 := AfterUpdate(scheme, met, s, t, token, id, value, recipients, w).value;
            var keys := RecipientsFor(met, token, w.keepReadableCopy, recipients, NewConsumers(w));
            keys.Ok? && Seal(scheme, value, keys.value).Ok? &&
            Stores(s1, id, sel, Seal(scheme, value, keys.value).value) &&
            (c in NewConsumers(w) ==> Holds(s1, id, sel, Seal(scheme, value, keys.value).value, c))
  {
    var blob := Seal(scheme, value, RecipientsFor(met, token, w.keepReadableCopy, recipients, NewConsumers(w)).value).value;
    var s1 := AfterUpdate(scheme, met, s, t, token, id, value, recipients, w).value;
    var vs, ws := At(s.book.names, id), At(s1.book.names, id);
    var i := Find(vs, sel).value;
    assert ws == vs[i := Revalued(vs[i], t, blob, OptionalTagsFor(w.tags).value, w.usedBy)];
    SameFind(vs, ws, sel);
  }

  // Whoever reads with a write token, whatever consumer token is configured
  // beside it, and holds the identity of a key the value was meant for gets
  // the value.
  ghost predicate OpenTo(scheme: Scheme, end: State, id: string, sel: Selector, value: Bytes, key: string, now: int,
                         token: string, consumerToken: string, identities: seq<string>)
  {
    MayWrite(SiteOf(end), now, token) && HoldsKey(scheme, identities, key) ==>
      GetPlain(scheme, SiteOf(end), now, Config(token, consumerToken), id, identities, sel) == Ok(value)
  }

  // A key a write is meant for, besides the named consumers': an explicit
  // recipient's, and the owner's when a readable copy is asked for.
  predicate MeantFor(met: seq<Glance>, keep: bool, recipients: seq<string>, usedBy: seq<string>, key: string)
    requires met != []
  {
    key in recipients || (keep && key == MetAt(met, Lookups(recipients, usedBy)).site.owner)
  }

  lemma StaysOpen(scheme: Scheme, met: seq<Glance>, s: State, t: int, token: string, id: string, sel: Selector,
                  value: Bytes, recipients: seq<string>, usedBy: seq<string>, keep: bool, steps: seq<Step>, key: string,
                  now: int, writeToken: string, consumerToken: string, identities: seq<string>)
    requires Inv(s) && IsRun(s, t, steps) && met != [] && sel.consumer == ""
    requires forall j :: 0 <= j < |steps| ==> !Touches(steps[j].op, id)
    requires var keys := RecipientsFor(met, token, keep, recipients, usedBy);
             keys.Ok? && Seal(scheme, value, keys.value).Ok? && Stores(s, id, sel, Seal(scheme, value, keys.value).value)
    requires MeantFor(met, keep, recipients, usedBy, key)
    ensures OpenTo(scheme, End(s, t, steps), id, sel, value, key, now, writeToken, consumerToken, identities)
  {
    var keys := RecipientsFor(met, token, keep, recipients, usedBy).value;
    RunKeepsStoring(s, t, steps, id, sel, Seal(scheme, value, keys).value);
    assert keep ==> keys[|keys| - 1] == MetAt(met, Lookups(recipients, usedBy)).site.owner;
    assert key in keys;
    var end := End(s, t, steps);
    if MayWrite(SiteOf(end), now, writeToken) && HoldsKey(scheme, identities, key) {
      StoredIsReadable(scheme, end, now, Config(writeToken, consumerToken), id, sel, value, keys, key, identities);
    }
  }

  // The owner, when a readable copy was asked for, and every explicit
  // recipient read an injected value back with a write token, until some
  // request is about that object.
  lemma {:induction false} InjectedIsOpen(
      scheme: Scheme, met: seq<Glance>, s: State, t: int, token: string, id: string, sel: Selector, value: Bytes,
      recipients: seq<string>, usedBy: seq<string>, description: string, w: WriteOptions, steps: seq<Step>, key: string,
      now: int, writeToken: string, consumerToken: string, identities: seq<string>)
    requires Inv(s) && met != [] && InjectMeets(met, recipients, usedBy, w) == Glance(SiteOf(s), t) && FindsCreated(id, sel)
    requires var r := AfterInject(scheme, met, s, t, token, id, value, recipients, usedBy, description, w);
             r.Ok? && IsRun(r.value, t, steps)
    requires forall j :: 0 <= j < |steps| ==> !Touches(steps[j].op, id)
    requires MeantFor(met, w.keepReadableCopy, recipients, usedBy, key)
    ensures var s1 := AfterInject(scheme, met, s, t, token, id, value, recipients, usedBy, description, w).value;
            OpenTo(scheme, End(s1, t, steps), id, sel, value, key, now, writeToken, consumerToken, identities)
  {
    InjectedIsHeld(scheme, met, s, t, token, id, sel, value, recipients, usedBy, description, w, "");
    var s1 := AfterInject(scheme, met, s, t, token, id, value, recipients, usedBy, description, w).value;
    StaysOpen(scheme, met, s1, t, token, id, sel, value, recipients, usedBy, w.keepReadableCopy, steps, key, now,
              writeToken, consumerToken, identities);
  }

  // And an updated one, whichever variant of a name was replaced.
  lemma {:induction false} UpdatedIsOpen(
      scheme: Scheme, met: seq<Glance>, s: State, t: int, token: string, id: string, sel: Selector, value: Bytes,
      recipients: seq<string>, w: WriteOptions, steps: seq<Step>, key: string, now: int, writeToken: string,
      consumerToken: string, identities: seq<string>)
    requires Inv(s) && met != [] && UpdateMeets(met, recipients, w) == Glance(SiteOf(s), t)
    requires FindsUpdated(At(s.book.names, id), w, sel)
    requires var r := AfterUpdate(scheme, met, s, t, token, id, value, recipients, w);
             r.Ok? && IsRun(r.value, t, steps)
    requires forall j :: 0 <= j < |steps| ==> !Touches(steps[j].op, id)
    requires MeantFor(met, w.keepReadableCopy, recipients, NewConsumers(w), key)
    ensures var s1 := AfterUpdate(scheme, met, s, t, token, id, value, recipients, w).value;
            OpenTo(scheme, End(s1, t, steps), id, sel, value, key, now, writeToken, consumerToken, identities)
  {
    UpdatedIsHeld(scheme, met, s, t, token, id, sel, value, recipients, w, "");
    var s1 := AfterUpdate(scheme, met, s, t, token, id, value, recipients, w).value;
    StaysOpen(scheme, met, s1, t, token, id, sel, value, recipients, NewConsumers(w), w.keepReadableCopy, steps, key, now,
              writeToken, consumerToken, identities);
  }

  // A live read token of c, presented alone, reads for c: the premise the two
  // theorems ask for, by the token's own history.
  lemma LiveTokenReads(s: State, t: int, steps: seq<Step>, tokenId: string, now: int)
    requires Inv(s) && IsRun(s, t, steps)
    requires tokenId in s.keys.table && T.Usable(s.keys.table[tokenId], now)
    requires forall i :: 0 <= i < |steps| ==> !Runs.Retires(steps[i].op, tokenId)
    ensures ReadsFor(End(s, t, steps), now, Config("", s.keys.table[tokenId].value), s.keys.table[tokenId].consumer)
  {
    LiveStaysLive(s, t, steps, tokenId, now);
    assert T.Built(s.keys.table[tokenId], tokenId, s.used);
    assert s.keys.table[tokenId].value[0] == 'c';
  }
}
