// The in-memory server itself: mutable maps, an overflow map for further
// variants, token records shared by reference, and a value index beside them.
// Every method is one atomic step and refines the state machine's.
module Server {
  import opened Prelude
  import opened Sealing
  import opened Variants
  import D = Directory
  import T = Tokens
  import A = AuditLog
  import L = Listing
  import Sorting
  import M = Machine

  // One issued consumer token, updated in place through the reference the
  // token map holds.
  class TokenCell {
    const id: string
    const consumer: string
    const description: string
    const createdAt: int
    var expiresAt: int
    var revoked: bool
    var value: string

    constructor (id: string, consumer: string, description: string, createdAt: int, expiresAt: int, value: string)
      ensures Record() == T.Token(id, consumer, description, createdAt, expiresAt, false, value)
    {
      this.id, this.consumer, this.description := id, consumer, description;
      this.createdAt, this.expiresAt := createdAt, expiresAt;
      this.revoked, this.value := false, value;
    }

    function Record(): T.Token
      reads this
    {
      T.Token(id, consumer, description, createdAt, expiresAt, revoked, value)
    }

    method Renew(value: string, expiresAt: int)
      modifies this
      ensures Record() == old(Record()).(value := value, expiresAt := expiresAt)
    {
      this.value, this.expiresAt := value, expiresAt;
    }
  }

  // The names in order as a duplicate-free list with one name replaced.
  method RenameUsedBy(usedBy: seq<string>, from: string, to: string) returns (result: seq<string>)
    ensures result == D.RenameUsedBy(usedBy, from, to)
  {
    var seen: set<string> := {};
    result := [];
    for i := 0 to |usedBy|
      invariant result == D.RenameUsedBy(usedBy[..i], from, to)
      invariant seen == Elements(result)
    {
      var name := usedBy[i];
      if name == from {
        name := to;
      }
      D.RenameSnoc(usedBy, i, from, to);
      if name !in seen {
        seen := seen + {name};
        result := result + [name];
      }
    }
    assert usedBy[..|usedBy|] == usedBy;
  }

  method RemoveUsedBy(usedBy: seq<string>, name: string) returns (result: seq<string>)
    ensures result == D.RemoveUsedBy(usedBy, name)
  {
    result := [];
    for i := 0 to |usedBy|
      invariant result == D.RemoveUsedBy(usedBy[..i], name)
    {
      assert usedBy[..i + 1] == usedBy[..i] + [usedBy[i]];
      FilterSnoc(usedBy[..i], usedBy[i], D.OtherThan(name));
      if usedBy[i] != name {
        result := result + [usedBy[i]];
      }
    }
    assert usedBy[..|usedBy|] == usedBy;
  }

  class Store {
    var objects: map<string, Object>
    var extra: map<string, seq<Object>>
    var consumers: D.Entries
    var tokens: map<string, int>
    var consumerTokens: map<string, TokenCell>
    var consumerTokenValues: T.Index
    var auditLog: seq<A.Entry>
    var auditSeq: int
    var ownerPublicKey: string

    // ------------------------------------------------------ abstract view

    static function ListOf(objects: map<string, Object>, extra: map<string, seq<Object>>, id: string): seq<Object> {
      if id !in objects then []
      else [objects[id]] + if id in extra then extra[id] else []
    }

    function VariantsOf(id: string): seq<Object>
      reads this`objects, this`extra
    {
      ListOf(objects, extra, id)
    }

    static ghost function NamesOf(objects: map<string, Object>, extra: map<string, seq<Object>>): (n: Names)
      ensures NonEmpty(n)
    {
      map id | id in objects :: ListOf(objects, extra, id)
    }

    ghost function NamesView(): (n: Names)
      reads this`objects, this`extra
      ensures NonEmpty(n)
    {
      NamesOf(objects, extra)
    }

    ghost function BookView(): D.Book
      reads this`objects, this`extra, this`consumers
    {
      D.Book(consumers, NamesView())
    }

    // The overflow map only ever extends names that have a primary.
    ghost predicate Shape()
      reads this`objects, this`extra
    {
      extra.Keys <= objects.Keys && forall id :: id in extra ==> extra[id] != []
    }

    ghost function TableView(): T.Table
      reads this`consumerTokens, consumerTokens.Values
    {
      map id | id in consumerTokens :: consumerTokens[id].Record()
    }

    ghost function KeysView(): T.Keys
      reads this`tokens, this`consumerTokens, consumerTokens.Values
    {
      T.Keys(TableView(), tokens)
    }

    // No two ids share a token record.
    ghost predicate Unshared()
      reads this`consumerTokens
    {
      forall a, b :: a in consumerTokens && b in consumerTokens && consumerTokens[a] == consumerTokens[b] ==> a == b
    }

    // And the index is inverse to the table.
    ghost predicate TokenShape()
      reads this`consumerTokens, this`consumerTokenValues, consumerTokens.Values
    {
      Unshared() && T.Inverse(TableView(), consumerTokenValues)
    }

    ghost predicate LogShape()
      reads this`auditLog, this`auditSeq
    {
      auditSeq == |auditLog| && A.Numbered(auditLog)
    }

    constructor ()
      ensures Shape() && TokenShape() && LogShape()
      ensures M.State(BookView(), KeysView(), auditLog, ownerPublicKey, {}) == M.EMPTY
    {
      objects, extra, consumers, tokens := map[], map[], map[], map[];
      consumerTokens, consumerTokenValues := map[], map[];
      auditLog, auditSeq := [], 0;
      ownerPublicKey := "";
    }

    // ----------------------------------------------------------- variants

    // Writes a name's variants back as VariantsOf read them.
    method StoreVariants(id: string, variants: seq<Object>)
      requires Shape()
      modifies this`objects, this`extra
      ensures Shape()
      ensures NamesView() == Put(old(NamesView()), id, variants)
      ensures VariantsOf(id) == variants
    {
      if |variants| == 0 {
        objects, extra := objects - {id}, extra - {id};
      } else {
        objects := objects[id := variants[0]];
        if |variants| > 1 {
          extra := extra[id := variants[1..]];
        } else {
          extra := extra - {id};
        }
      }
      StoredList(old(objects), old(extra), objects, extra, id, variants);
    }

    // Only this name's list changes when only its entries do.
    static lemma StoredList(objects: map<string, Object>, extra: map<string, seq<Object>>,
                            objects': map<string, Object>, extra': map<string, seq<Object>>, id: string,
                            variants: seq<Object>)
      requires objects' == if variants == [] then objects - {id} else objects[id := variants[0]]
      requires extra' == if |variants| <= 1 then extra - {id} else extra[id := variants[1..]]
      ensures ListOf(objects', extra', id) == variants
      ensures NamesOf(objects', extra') == Put(NamesOf(objects, extra), id, variants)
    {
      if variants != [] { assert [variants[0]] + variants[1..] == variants; }
      var n, m := NamesOf(objects', extra'), Put(NamesOf(objects, extra), id, variants);
      assert n.Keys == m.Keys;
      forall k | k in n ensures n[k] == m[k] {
        if k != id { OtherList(objects, extra, objects', extra', k); }
      }
    }

    static lemma OtherList(objects: map<string, Object>, extra: map<string, seq<Object>>,
                           objects': map<string, Object>, extra': map<string, seq<Object>>, k: string)
      requires k in objects <==> k in objects'
      requires k in objects ==> objects'[k] == objects[k]
      requires k in extra <==> k in extra'
      requires k in extra ==> extra'[k] == extra[k]
      ensures ListOf(objects', extra', k) == ListOf(objects, extra, k)
    {
    }

    static method FindIn(variants: seq<Object>, sel: Selector) returns (r: Result<nat>)
      ensures r == Find(variants, sel)
    {
      if |variants| == 0 {
        return Err(NotFound);
      }
      if sel == ANY_VARIANT {
        return if |variants| > 1 then Err(SeveralVariants) else Ok(0);
      }
      for i := 0 to |variants|
        invariant forall j :: 0 <= j < i ==> !Selects(sel, variants[j])
      {
        if Selects(sel, variants[i]) {
          FirstSelectedUnique(variants, sel, i);
          return Ok(i);
        }
      }
      return Err(NotFound);
    }

    method FindVariant(id: string, sel: Selector) returns (r: Result<nat>)
      ensures r == Find(At(NamesView(), id), sel)
      ensures At(NamesView(), id) == VariantsOf(id)
      ensures r.Ok? ==> r.value < |VariantsOf(id)| && id in objects
    {
      r := FindIn(VariantsOf(id), sel);
      assert VariantsOf(id) == At(NamesView(), id);
    }

    method Enrol(usedBy: seq<string>)
      modifies this`consumers
      ensures consumers == D.Enrol(old(consumers), usedBy)
    {
      for i := 0 to |usedBy|
        invariant consumers == D.Enrol(old(consumers), usedBy[..i])
      {
        if usedBy[i] !in consumers {
          consumers := consumers[usedBy[i] := None];
        }
        assert usedBy[..i + 1] == usedBy[..i] + [usedBy[i]];
      }
      assert usedBy[..|usedBy|] == usedBy;
    }

    method CreateObject(now: int, id: string, value: Blob, usedBy: seq<string>, description: string, tags: seq<string>)
      returns (refused: Option<Failure>)
      requires Shape()
      modifies this`objects, this`consumers
      ensures Shape()
      ensures (refused, BookView()) == D.Outcome(old(BookView()), now, D.Create(id, value, usedBy, description, tags))
    {
      if id in objects {
        return Some(AlreadyExists);
      }
      objects := objects[id := Object(SlugId(id), value, usedBy, description, tags, now, now)];
      Enrol(usedBy);
      assert VariantsOf(id) == [objects[id]];
      assert forall k :: k != id ==> VariantsOf(k) == old(VariantsOf(k));
      assert NamesView() == old(NamesView())[id := VariantsOf(id)];
      return None;
    }

    method AddVariant(now: int, id: string, value: Blob, usedBy: seq<string>, draw: string)
      returns (refused: Option<Failure>, variantId: Option<ObjectId>)
      requires Shape()
      modifies this`extra
      ensures Shape()
      ensures refused.Some? ==> variantId.None?
      ensures refused.None? ==> |VariantsOf(id)| == |old(VariantsOf(id))| + 1 &&
                                variantId == Some(VariantsOf(id)[|old(VariantsOf(id))|].id)
      ensures (refused, BookView()) == D.Outcome(old(BookView()), now, D.AddVariant(id, value, usedBy, draw))
    {
      if id !in objects {
        return Some(NotFound), None;
      }
      var variant := Object(RandomId(draw), value, usedBy, "", [], now, now);
      extra := extra[id := (if id in extra then extra[id] else []) + [variant]];
      assert VariantsOf(id) == old(VariantsOf(id)) + [variant];
      assert forall k :: k != id ==> VariantsOf(k) == old(VariantsOf(k));
      assert NamesView() == old(NamesView())[id := VariantsOf(id)];
      return None, Some(variant.id);
    }

    // The addressed variant as an accepted request leaves it.
    static function Addressed(refused: Option<Failure>, before: seq<Object>, after: seq<Object>, sel: Selector): Option<Object> {
      match (refused, Find(before, sel))
      case (None, Ok(i)) => if i < |after| then Some(after[i]) else None
      case _ => None
    }

    // The variant with a new value, and new tags and consumers where given.
    static method Revise(v: Object, now: int, value: Blob, tags: Option<seq<string>>, usedBy: Option<seq<string>>)
      returns (obj: Object)
      ensures obj == Revalued(v, now, value, tags, usedBy)
    {
      obj := v.(value := value, updatedAt := now);
      if tags.Some? {
        obj := obj.(tags := tags.value);
      }
      if usedBy.Some? {
        obj := obj.(usedBy := usedBy.value);
      }
    }

    method UpdateVariant(now: int, id: string, sel: Selector, value: Blob,
                         tags: Option<seq<string>>, usedBy: Option<seq<string>>)
      returns (refused: Option<Failure>, updated: Option<Object>)
      requires Shape()
      modifies this`objects, this`extra, this`consumers
      ensures Shape()
      ensures (refused, BookView()) == D.Outcome(old(BookView()), now, D.Update(id, sel, value, tags, usedBy))
      ensures updated == Addressed(refused, old(VariantsOf(id)), VariantsOf(id), sel)
    {
      D.UpdateOutcome(BookView(), now, id, sel, value, tags, usedBy);
      refused, updated := UpdateNames(now, id, sel, value, tags, usedBy);
      if refused.None? && usedBy.Some? {
        Enrol(usedBy.value);
      }
    }

    // What is told and left behind when a change to the variants has this
    // outcome.
    ghost predicate Leaves(r: Result<Names>, refused: Option<Failure>, before: Names)
      reads this`objects, this`extra
    {
      match r
      case Ok(n) => refused == None && NamesView() == n
      case Err(e) => refused == Some(e) && NamesView() == before
    }

    method UpdateNames(now: int, id: string, sel: Selector, value: Blob,
                       tags: Option<seq<string>>, usedBy: Option<seq<string>>)
      returns (refused: Option<Failure>, updated: Option<Object>)
      requires Shape()
      modifies this`objects, this`extra
      ensures Shape()
      ensures Leaves(Update(old(NamesView()), now, id, sel, value, tags, usedBy), refused, old(NamesView()))
      ensures updated == Addressed(refused, old(VariantsOf(id)), VariantsOf(id), sel)
    {
      var found := FindVariant(id, sel);
      if found.Err? {
        return Some(found.error), None;
      }
      var obj := ReviseAt(now, id, found.value, value, tags, usedBy);
      return None, Some(obj);
    }

    method ReviseAt(now: int, id: string, i: nat, value: Blob, tags: Option<seq<string>>, usedBy: Option<seq<string>>)
      returns (obj: Object)
      requires Shape() && i < |VariantsOf(id)|
      modifies this`objects, this`extra
      ensures Shape()
      ensures obj == Revalued(old(VariantsOf(id))[i], now, value, tags, usedBy)
      ensures VariantsOf(id) == old(VariantsOf(id))[i := obj]
      ensures NamesView() == old(NamesView())[id := old(VariantsOf(id))[i := obj]]
    {
      var variants := VariantsOf(id);
      obj := Revise(variants[i], now, value, tags, usedBy);
      StoreVariants(id, variants[i := obj]);
    }

    // The variant with a new description and tags where given.
    static method Relabel(v: Object, now: int, description: Option<string>, tags: Option<seq<string>>)
      returns (obj: Object)
      ensures obj == Relabelled(v, now, description, tags)
    {
      obj := v;
      if description.Some? {
        obj := obj.(description := description.value);
      }
      if tags.Some? {
        obj := obj.(tags := tags.value);
      }
      obj := obj.(updatedAt := now);
    }

    method PatchVariant(now: int, id: string, sel: Selector, description: Option<string>,
                        slug: Option<string>, tags: Option<seq<string>>)
      returns (refused: Option<Failure>, patched: Option<Object>)
      requires Shape()
      modifies this`objects, this`extra
      ensures Shape()
      ensures (refused, BookView()) == D.Outcome(old(BookView()), now, D.Patch(id, sel, description, slug, tags))
      ensures patched == Addressed(refused, old(VariantsOf(id)), VariantsOf(if slug.Some? then slug.value else id), sel)
    {
      refused, patched := PatchNames(now, id, sel, description, slug, tags);
    }

    method PatchNames(now: int, id: string, sel: Selector, description: Option<string>,
                      slug: Option<string>, tags: Option<seq<string>>)
      returns (refused: Option<Failure>, patched: Option<Object>)
      requires Shape()
      modifies this`objects, this`extra
      ensures Shape()
      ensures Leaves(Patch(old(NamesView()), now, id, sel, description, slug, tags), refused, old(NamesView()))
      ensures patched == Addressed(refused, old(VariantsOf(id)), VariantsOf(if slug.Some? then slug.value else id), sel)
    {
      var found := FindVariant(id, sel);
      if found.Err? {
        return Some(found.error), None;
      }
      if slug.Some? && slug.value != id && slug.value in objects {
        return Some(AlreadyExists), None;
      }
      var variants := VariantsOf(id);
      var obj := Relabel(variants[found.value], now, description, tags);
      Refile(id, if slug.Some? then slug.value else id, variants[found.value := obj]);
      return None, Some(obj);
    }

    // Writes a name's variants under another name, or the same.
    method Refile(id: string, target: string, variants: seq<Object>)
      requires Shape() && variants != []
      modifies this`objects, this`extra
      ensures Shape()
      ensures NamesView() == (if target != id then old(NamesView()) - {id} else old(NamesView()))[target := variants]
      ensures VariantsOf(target) == variants
    {
      if target != id {
        StoreVariants(id, []);
      }
      StoreVariants(target, variants);
    }

    method DeleteVariant(now: int, id: string, sel: Selector) returns (refused: Option<Failure>)
      requires Shape()
      modifies this`objects, this`extra
      ensures Shape()
      ensures (refused, BookView()) == D.Outcome(old(BookView()), now, D.Delete(id, sel))
    {
      var found := FindVariant(id, sel);
      if found.Err? {
        return Some(found.error);
      }
      var variants := VariantsOf(id);
      StoreVariants(id, variants[..found.value] + variants[found.value + 1..]);
      return None;
    }

    // ---------------------------------------------------------- consumers

    method AddConsumer(now: int, name: string) returns (refused: Option<Failure>)
      modifies this`consumers
      ensures (refused, BookView()) == D.Outcome(old(BookView()), now, D.AddConsumer(name))
    {
      if name in consumers {
        return Some(ConsumerExists);
      }
      consumers := consumers[name := None];
      return None;
    }

    method MergeConsumer(name: string, target: string)
      requires Shape() && name in consumers
      modifies this`objects, this`consumers
      ensures Shape()
      ensures consumers == (old(consumers) - {name})[target := D.MergedKey(old(consumers), name, target)]
      ensures NamesView() == D.RenameIn(old(NamesView()), name, target)
    {
      var key := consumers[name];
      if target in consumers && consumers[target].Some? {
        key := consumers[target];
      }
      consumers := (consumers - {name})[target := key];
      RenameEverywhere(name, target);
    }

    method UpdateConsumer(now: int, name: string, newName: Option<string>, publicKey: Option<string>)
      returns (refused: Option<Failure>, entry: Option<D.Entry>)
      requires Shape()
      modifies this`objects, this`consumers
      ensures Shape()
      ensures (refused, BookView()) == D.Outcome(old(BookView()), now, D.UpdateConsumer(name, newName, publicKey))
      ensures entry == if refused.None? then Some(D.EntryOf(BookView(), if newName.Some? then newName.value else name)) else None
    {
      refused := Reregister(now, name, newName, publicKey);
      if refused.Some? {
        return refused, None;
      }
      var changed := ConsumerEntry(if newName.Some? then newName.value else name);
      return None, Some(changed);
    }

    method Reregister(now: int, name: string, newName: Option<string>, publicKey: Option<string>)
      returns (refused: Option<Failure>)
      requires Shape()
      modifies this`objects, this`consumers
      ensures Shape()
      ensures (refused, BookView()) == D.Outcome(old(BookView()), now, D.UpdateConsumer(name, newName, publicKey))
    {
      if name !in consumers {
        if newName.Some? {
          return Some(ConsumerNotFound);
        }
        consumers := consumers[name := publicKey];
        return None;
      }
      var target := name;
      if newName.Some? {
        target := newName.value;
        MergeConsumer(name, target);
      }
      if publicKey.Some? {
        consumers := consumers[target := publicKey];
      }
      return None;
    }

    // A walk over the primaries that has rewritten the lists of all but those
    // still to do.
    static ghost predicate Rewriting(before: map<string, Object>, after: map<string, Object>, todo: set<string>,
                                     f: seq<string> -> seq<string>)
    {
      && todo <= before.Keys == after.Keys
      && forall id :: id in before ==> after[id] == if id in todo then before[id] else Rewritten(before[id], f)
    }

    static function Rewritten(v: Object, f: seq<string> -> seq<string>): Object {
      v.(usedBy := f(v.usedBy))
    }

    static lemma RewriteOne(before: map<string, Object>, after: map<string, Object>, todo: set<string>,
                            f: seq<string> -> seq<string>, id: string)
      requires Rewriting(before, after, todo, f) && id in todo
      ensures Rewriting(before, after[id := Rewritten(after[id], f)], todo - {id}, f)
    {
    }

    static lemma WalkRenames(before: map<string, Object>, after: map<string, Object>, extra: map<string, seq<Object>>,
                             from: string, to: string)
      requires Rewriting(before, after, {}, D.Renaming(from, to))
      ensures NamesOf(after, extra) == D.RenameIn(NamesOf(before, extra), from, to)
    {
      var n, m := NamesOf(after, extra), D.RenameIn(NamesOf(before, extra), from, to);
      forall id | id in before ensures n[id] == m[id] {
      }
    }

    static lemma WalkRemoves(before: map<string, Object>, after: map<string, Object>, extra: map<string, seq<Object>>,
                             name: string)
      requires Rewriting(before, after, {}, D.Removing(name))
      ensures NamesOf(after, extra) == D.RemoveIn(NamesOf(before, extra), name)
    {
      var n, m := NamesOf(after, extra), D.RemoveIn(NamesOf(before, extra), name);
      forall id | id in before ensures n[id] == m[id] {
      }
    }

    // In whatever order the map yields the names.
    method RenameEverywhere(from: string, to: string)
      requires Shape()
      modifies this`objects
      ensures Shape()
      ensures NamesView() == D.RenameIn(old(NamesView()), from, to)
    {
      ghost var f := D.Renaming(from, to);
      var todo := objects.Keys;
      while todo != {}
        invariant Rewriting(old(objects), objects, todo, f)
        decreases todo
      {
        var id :| id in todo;
        var list := RenameUsedBy(objects[id].usedBy, from, to);
        RewriteOne(old(objects), objects, todo, f, id);
        objects := objects[id := objects[id].(usedBy := list)];
        todo := todo - {id};
      }
      WalkRenames(old(objects), objects, extra, from, to);
    }

    method RemoveEverywhere(name: string)
      requires Shape()
      modifies this`objects
      ensures Shape()
      ensures NamesView() == D.RemoveIn(old(NamesView()), name)
    {
      ghost var f := D.Removing(name);
      var todo := objects.Keys;
      while todo != {}
        invariant Rewriting(old(objects), objects, todo, f)
        decreases todo
      {
        var id :| id in todo;
        var list := RemoveUsedBy(objects[id].usedBy, name);
        RewriteOne(old(objects), objects, todo, f, id);
        objects := objects[id := objects[id].(usedBy := list)];
        todo := todo - {id};
      }
      WalkRemoves(old(objects), objects, extra, name);
    }

    method DeleteConsumer(now: int, name: string) returns (refused: Option<Failure>)
      requires Shape()
      modifies this`objects, this`consumers
      ensures Shape()
      ensures (refused, BookView()) == D.Outcome(old(BookView()), now, D.DeleteConsumer(name))
    {
      if name !in consumers {
        return Some(ConsumerNotFound);
      }
      consumers := consumers - {name};
      RemoveEverywhere(name);
      return None;
    }

    // One directory entry, with its secret count.
    method ConsumerEntry(name: string) returns (entry: D.Entry)
      requires Shape()
      ensures entry == D.EntryOf(BookView(), name)
    {
      var count := 0;
      var todo := objects.Keys;
      ghost var counted: set<string> := {};
      while todo != {}
        invariant todo <= objects.Keys
        invariant counted == set id | id in objects && id !in todo && name in objects[id].usedBy
        invariant count == |counted|
        decreases todo
      {
        var id :| id in todo;
        todo := todo - {id};
        if name in objects[id].usedBy {
          count := count + 1;
          counted := counted + {id};
        }
      }
      assert forall id :: id in objects ==> NamesView()[id][0] == objects[id];
      assert counted == D.Naming(NamesView(), name);
      return D.Entry(name, if name in consumers then consumers[name] else None, count);
    }

    method DirectoryNames() returns (names: seq<string>)
      ensures names == Sorting.SortedNames(consumers.Keys)
    {
      names := [];
      var todo := consumers.Keys;
      while todo != {}
        invariant todo <= consumers.Keys
        invariant NoDuplicates(names) && forall x :: x in names <==> x in consumers && x !in todo
        decreases todo
      {
        var name :| name in todo;
        todo := todo - {name};
        names := names + [name];
      }
      D.SortedIsSortedNames(names, consumers.Keys);
      names := Sorting.Sort(names, Sorting.SELF);
    }

    static method FilterNames(names: seq<string>, q: string) returns (filtered: seq<string>)
      ensures filtered == Filter(names, D.NameMatches(Some(q)))
    {
      filtered := [];
      for i := 0 to |names|
        invariant filtered == Filter(names[..i], D.NameMatches(Some(q)))
      {
        assert names[..i + 1] == names[..i] + [names[i]];
        FilterSnoc(names[..i], names[i], D.NameMatches(Some(q)));
        if D.ContainsFolded(names[i], q) {
          filtered := filtered + [names[i]];
        }
      }
      assert names[..|names|] == names;
    }

    method EntriesFor(names: seq<string>) returns (entries: seq<D.Entry>)
      requires Shape()
      ensures entries == Map(names, D.EntryFor(BookView()))
    {
      entries := [];
      for i := 0 to |names|
        invariant entries == Map(names[..i], D.EntryFor(BookView()))
      {
        var entry := ConsumerEntry(names[i]);
        entries := entries + [entry];
      }
      assert names[..|names|] == names;
    }

    // The directory, whole and by name alone for an empty filter, otherwise
    // one page of it. A page outside the list's bounds crashes the request.
    method ListConsumers(q: Option<string>, page: Option<int>, pageSize: Option<int>)
      returns (r: Result<D.Listing>)
      requires Shape()
      ensures r == D.List(BookView(), q, page, pageSize)
    {
      var names := DirectoryNames();
      if q.None? && page.None? && pageSize.None? {
        return Ok(D.AllNames(names));
      }
      var matched := names;
      if q.Some? {
        matched := FilterNames(names, q.value);
      } else {
        D.FilterAll(names, D.NameMatches(q));
      }
      var size := Min(if pageSize.Some? then pageSize.value else 20, 100);
      var bounds := D.Bounds(|matched|, if page.Some? then page.value else 1, size);
      if bounds.None? {
        return Err(Crashed);
      }
      var entries := EntriesFor(matched[bounds.value.0..bounds.value.1]);
      return Ok(D.OnePage(entries, D.Int32(|matched|)));
    }

    // ----------------------------------------------------- consumer tokens

    method Insert(rec: TokenCell)
      requires Unshared()
      requires forall a :: a in consumerTokens ==> consumerTokens[a] != rec
      modifies this`consumerTokens, this`consumerTokenValues
      ensures Unshared()
      ensures consumerTokens == old(consumerTokens)[rec.id := rec]
      ensures consumerTokenValues == old(consumerTokenValues)[rec.value := rec.id]
      ensures TableView() == old(TableView())[rec.id := rec.Record()]
    {
      consumerTokens := consumerTokens[rec.id := rec];
      consumerTokenValues := consumerTokenValues[rec.value := rec.id];
      assert TableView() == old(TableView())[rec.id := rec.Record()];
    }

    // The draws are whatever the entropy source yields, new or not.
    method IssueConsumerToken(now: int, consumer: string, description: string, ttl: int, idDraw: string, draw: string)
      returns (value: string)
      requires Unshared()
      modifies this`consumerTokens, this`consumerTokenValues
      ensures Unshared()
      ensures fresh(consumerTokens.Values - old(consumerTokens.Values))
      ensures var op := T.IssueToken(consumer, description, ttl, idDraw, draw);
              && (None, KeysView()) == T.Outcome(old(KeysView()), now, op)
              && consumerTokenValues == T.IndexAfter(old(TableView()), old(consumerTokenValues), now, op)
      ensures value == T.ValueOf(consumer, draw)
    {
      value := T.ValueOf(consumer, draw);
      var rec := new TokenCell(idDraw, consumer, description, now, now + ttl, value);
      assert rec.Record() == T.Issued(now, consumer, description, ttl, idDraw, draw);
      Insert(rec);
      return value;
    }

    // Writes one record through the reference the map holds.
    method RenewRecord(id: string, value: string, expiresAt: int)
      requires Unshared() && id in consumerTokens
      modifies consumerTokens[id]
      ensures TableView() == old(TableView())[id := old(TableView()[id]).(value := value, expiresAt := expiresAt)]
    {
      consumerTokens[id].Renew(value, expiresAt);
    }

    // A fresh value and expiry, and the index moved along.
    method Renew(id: string, now: int, ttl: int, draw: string)
      requires Unshared() && id in consumerTokens
      modifies this`consumerTokenValues, consumerTokens[id]
      ensures TableView() == old(TableView())[id := T.Rotated(old(TableView()[id]), now, ttl, draw)]
      ensures consumerTokenValues ==
              (old(consumerTokenValues) - {old(TableView()[id]).value})[T.ValueOf(old(TableView()[id]).consumer, draw) := id]
    {
      var was, value := consumerTokens[id].value, T.ValueOf(consumerTokens[id].consumer, draw);
      consumerTokenValues := consumerTokenValues - {was};
      RenewRecord(id, value, now + ttl);
      consumerTokenValues := consumerTokenValues[value := id];
    }

    method RotateConsumerToken(now: int, id: string, ttl: int, draw: string) returns (refused: Option<Failure>)
      requires Unshared()
      modifies this`consumerTokenValues, consumerTokens.Values
      ensures var op := T.RotateToken(id, ttl, draw);
              && (refused, KeysView()) == T.Outcome(old(KeysView()), now, op)
              && consumerTokenValues == T.IndexAfter(old(TableView()), old(consumerTokenValues), now, op)
    {
      if id !in consumerTokens {
        return Some(TokenNotFound);
      }
      var rec := consumerTokens[id];
      if rec.revoked || now > rec.expiresAt {
        return Some(TokenNotFound);
      }
      Renew(id, now, ttl, draw);
      return None;
    }

    method RevokeConsumerToken(now: int, id: string)
      requires Unshared()
      modifies consumerTokens.Values
      ensures (None, KeysView()) == T.Outcome(old(KeysView()), now, T.RevokeToken(id))
    {
      if id in consumerTokens {
        var rec := consumerTokens[id];
        rec.revoked := true;
      }
      assert TableView() == T.Revoke(old(TableView()), id);
    }

    method PurgeConsumerToken(now: int, id: string) returns (refused: Option<Failure>)
      requires Unshared()
      modifies this`consumerTokens, this`consumerTokenValues
      ensures Unshared()
      ensures consumerTokens.Values <= old(consumerTokens.Values)
      ensures (refused, KeysView()) == T.Outcome(old(KeysView()), now, T.PurgeToken(id))
      ensures consumerTokenValues == T.IndexAfter(old(TableView()), old(consumerTokenValues), now, T.PurgeToken(id))
    {
      if id !in consumerTokens {
        return Some(TokenNotFound);
      }
      var rec := consumerTokens[id];
      if !rec.revoked && now < rec.expiresAt {
        return Some(TokenActive);
      }
      consumerTokens := consumerTokens - {id};
      consumerTokenValues := consumerTokenValues - {rec.value};
      assert TableView() == old(TableView()) - {id};
      return None;
    }

    method CreateWriteToken(now: int, name: string, ttl: int, draw: string) returns (token: string)
      modifies this`tokens
      ensures (None, KeysView()) == T.Outcome(old(KeysView()), now, T.CreateWriteToken(name, ttl, draw))
      ensures token == T.WriteValueOf(name, draw)
    {
      token := T.WriteValueOf(name, draw);
      tokens := tokens[token := now + ttl];
    }

    method ValidateToken(now: int, token: string) returns (ok: bool)
      ensures ok == T.ValidWriteToken(KeysView().writeTokens, token, now)
    {
      return token in tokens && now < tokens[token];
    }

    // The consumer a presented value is bound to, by way of the index.
    method ConsumerForToken(now: int, value: string) returns (r: Result<Option<string>>)
      ensures r == T.LookUp(KeysView().table, consumerTokenValues, value, now)
    {
      if value !in consumerTokenValues {
        return Ok(None);
      }
      var id := consumerTokenValues[value];
      if id !in consumerTokens {
        return Err(Crashed);
      }
      var rec := consumerTokens[id];
      if rec.revoked || now > rec.expiresAt {
        return Ok(None);
      }
      return Ok(Some(rec.consumer));
    }

    method SetOwnerPublicKey(key: string)
      modifies this`ownerPublicKey
      ensures ownerPublicKey == key
    {
      ownerPublicKey := key;
    }

    // ------------------------------------------------------------ audit log

    method RecordAuditEntry(now: int, entry: A.Entry, stamped: bool) returns (recorded: A.Entry)
      requires LogShape()
      modifies this`auditLog, this`auditSeq
      ensures LogShape()
      ensures auditLog == A.Recorded(old(auditLog), now, entry, stamped)
      ensures recorded == auditLog[|auditLog| - 1]
    {
      auditSeq := auditSeq + 1;
      recorded := entry.(id := auditSeq);
      if !stamped {
        recorded := recorded.(timestamp := now);
      }
      auditLog := auditLog + [recorded];
    }

    // The entries accepted by the first i of the log.
    ghost predicate Scanned(result: seq<A.Entry>, i: nat, accepts: A.Entry -> bool)
      reads this`auditLog
    {
      i <= |auditLog| && result == Filter(auditLog[..i], accepts)
    }

    lemma ScanNext(i: nat, accepts: A.Entry -> bool)
      requires i < |auditLog|
      ensures Filter(auditLog[..i + 1], accepts) ==
              Filter(auditLog[..i], accepts) + if accepts(auditLog[i]) then [auditLog[i]] else []
    {
      assert auditLog[..i + 1] == auditLog[..i] + [auditLog[i]];
      FilterSnoc(auditLog[..i], auditLog[i], accepts);
    }

    // The first n matches behind the cursor.
    method Scan(f: A.Criteria, after: Option<int>, n: nat) returns (result: seq<A.Entry>)
      ensures result == A.Take(Filter(auditLog, A.AcceptingAfter(f, after)), n)
    {
      ghost var accepts := A.AcceptingAfter(f, after);
      var i := 0;
      result := [];
      while i < |auditLog| && |result| < n
        invariant Scanned(result, i, accepts)
        invariant |result| <= n
      {
        ScanNext(i, accepts);
        if A.AcceptsAfter(f, after, auditLog[i]) {
          result := result + [auditLog[i]];
        }
        i := i + 1;
      }
      A.StopEarly(auditLog, accepts, i, n);
    }

    method QueryAuditLog(f: A.Criteria, after: Option<int>, limit: Option<int>) returns (r: Result<seq<A.Entry>>)
      ensures r == A.Page(auditLog, f, after, limit)
    {
      if f.objectId.Some? && !A.ValidObjectId(f.objectId.value) {
        return Err(InvalidFilter);
      }
      var n := if limit.Some? then limit.value else A.DEFAULT_PAGE;
      if n < 1 || n > A.PAGE_MAX {
        return Err(InvalidFilter);
      }
      var result := Scan(f, after, n);
      return Ok(result);
    }

    // -------------------------------------------------------------- listing

    method RowsFor(id: string, usedBy: string, tags: seq<string>) returns (rows: seq<L.Row>)
      ensures rows == L.RowsOf(id, VariantsOf(id), usedBy, tags)
    {
      var variants := VariantsOf(id);
      rows := [];
      for i := 0 to |variants|
        invariant rows == L.RowsOf(id, variants[..i], usedBy, tags)
      {
        assert variants[..i + 1][..i] == variants[..i];
        if L.Listed(variants[i], usedBy, tags) {
          rows := rows + [L.RowOf(id, variants[i])];
        }
      }
      assert variants[..|variants|] == variants;
    }

    method ListObjects(usedBy: string, tags: seq<string>) returns (rows: seq<L.Row>)
      ensures L.IsListing(rows, NamesView(), usedBy, tags)
    {
      rows := [];
      var todo := objects.Keys;
      ghost var order: seq<string> := [];
      while todo != {}
        invariant L.Visited(NamesView().Keys, order, todo)
        invariant rows == L.Collected(NamesView(), order, usedBy, tags)
        decreases todo
      {
        var id :| id in todo;
        var more := RowsFor(id, usedBy, tags);
        L.VisitNext(NamesView().Keys, order, todo, id);
        assert VariantsOf(id) == At(NamesView(), id);
        rows := rows + more;
        order := order + [id];
        todo := todo - {id};
      }
      assert L.VisitsAll(NamesView(), order);
      rows := Sorting.Sort(rows, L.BY_SLUG);
    }
  }
}
