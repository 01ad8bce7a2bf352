// The object store seen as a map from a name to its sequence of variants,
// and every operation on it. The first variant of a name is its primary.
module Variants {
  import opened Prelude
  import opened Sealing

  // A variant's UUID: derived from the slug it was created under, or drawn
  // at random. The two kinds carry different UUID versions.
  datatype ObjectId = SlugId(slug: string) | RandomId(draw: string)

  datatype Object = Object(
    id: ObjectId,
    value: Blob,
    usedBy: seq<string>,
    description: string,
    tags: seq<string>,
    createdAt: int,
    updatedAt: int)

  type Names = map<string, seq<Object>>

  // Which variant of a name a request means.
  datatype Selector = Selector(id: Option<ObjectId>, consumer: string)

  const ANY_VARIANT := Selector(None, "")

  ghost predicate NonEmpty(n: Names) {
    forall k :: k in n ==> n[k] != []
  }

  ghost predicate WellFormed(n: Names) {
    NonEmpty(n) && forall k :: k in n ==> DistinctIds(n[k])
  }

  ghost predicate DistinctIds(vs: seq<Object>) {
    forall i, j :: 0 <= i < j < |vs| ==> vs[i].id != vs[j].id
  }

  // No name holds more than its primary: runs that never seed a variant.
  ghost predicate OnlyPrimaries(n: Names) {
    forall k :: k in n ==> |n[k]| == 1
  }

  function At(n: Names, name: string): (vs: seq<Object>) {
    if name in n then n[name] else []
  }

  predicate Selects(sel: Selector, v: Object) {
    sel.id == Some(v.id) || (sel.consumer != "" && sel.consumer in v.usedBy)
  }

  // The index of the first variant the selector accepts.
  function FirstSelected(vs: seq<Object>, sel: Selector): (r: Option<nat>)
    ensures r.Some? ==> r.value < |vs| && Selects(sel, vs[r.value])
    ensures r.Some? ==> forall j :: 0 <= j < r.value ==> !Selects(sel, vs[j])
    ensures r.None? ==> forall j :: 0 <= j < |vs| ==> !Selects(sel, vs[j])
  {
    if vs == [] then None
    else if Selects(sel, vs[0]) then Some(0)
    else match FirstSelected(vs[1..], sel)
      case None => None
      case Some(i) =>
        assert forall j :: 0 < j <= i ==> vs[j] == vs[1..][j - 1];
        Some(i + 1)
  }

  lemma FirstSelectedUnique(vs: seq<Object>, sel: Selector, i: nat)
    requires i < |vs| && Selects(sel, vs[i])
    requires forall j :: 0 <= j < i ==> !Selects(sel, vs[j])
    ensures FirstSelected(vs, sel) == Some(i)
  {
    var r := FirstSelected(vs, sel);
    assert r.Some? && !(r.value < i) && !(i < r.value);
  }

  function Find(vs: seq<Object>, sel: Selector): (r: Result<nat>)
    ensures r.Ok? ==> r.value < |vs|
  {
    if vs == [] then Err(NotFound)
    else if sel == ANY_VARIANT then if |vs| > 1 then Err(SeveralVariants) else Ok(0)
    else match FirstSelected(vs, sel)
      case Some(i) => Ok(i)
      case None => Err(NotFound)
  }

  function Put(n: Names, name: string, vs: seq<Object>): Names {
    if vs == [] then n - {name} else n[name := vs]
  }

  function Create(n: Names, now: int, name: string, value: Blob, usedBy: seq<string>,
                  description: string, tags: seq<string>): Result<Names>
  {
    if name in n then Err(AlreadyExists)
    else Ok(n[name := [Object(SlugId(name), value, usedBy, description, tags, now, now)]])
  }

  function Add(n: Names, now: int, name: string, value: Blob, usedBy: seq<string>, draw: string): Result<Names> {
    if name !in n then Err(NotFound)
    else Ok(n[name := n[name] + [Object(RandomId(draw), value, usedBy, "", [], now, now)]])
  }

  function Revalued(v: Object, now: int, value: Blob, tags: Option<seq<string>>, usedBy: Option<seq<string>>): Object {
    v.(value := value, updatedAt := now,
       tags := if tags.Some? then tags.value else v.tags,
       usedBy := if usedBy.Some? then usedBy.value else v.usedBy)
  }

  function Update(n: Names, now: int, name: string, sel: Selector, value: Blob,
                  tags: Option<seq<string>>, usedBy: Option<seq<string>>): Result<Names>
  {
    var vs := At(n, name);
    match Find(vs, sel)
    case Err(e) => Err(e)
    case Ok(i) => Ok(n[name := vs[i := Revalued(vs[i], now, value, tags, usedBy)]])
  }

  function Relabelled(v: Object, now: int, description: Option<string>, tags: Option<seq<string>>): Object {
    v.(updatedAt := now,
       description := if description.Some? then description.value else v.description,
       tags := if tags.Some? then tags.value else v.tags)
  }

  // Whether a patch asks for another slug.
  predicate Moves(name: string, slug: Option<string>) {
    slug.Some? && slug.value != name
  }

  function Patch(n: Names, now: int, name: string, sel: Selector, description: Option<string>,
                 slug: Option<string>, tags: Option<seq<string>>): Result<Names>
  {
    var vs := At(n, name);
    match Find(vs, sel)
    case Err(e) => Err(e)
    case Ok(i) =>
      var patched := vs[i := Relabelled(vs[i], now, description, tags)];
      if Moves(name, slug) then
        if slug.value in n then Err(AlreadyExists) else Ok((n - {name})[slug.value := patched])
      else Ok(n[name := patched])
  }

  function Delete(n: Names, name: string, sel: Selector): Result<Names> {
    var vs := At(n, name);
    match Find(vs, sel)
    case Err(e) => Err(e)
    case Ok(i) => Ok(Put(n, name, vs[..i] + vs[i + 1..]))
  }

  // ------------------------------------------------------------ what it means

  // Which variant a selector picks, stated without the search.
  lemma FindMeaning(vs: seq<Object>, sel: Selector)
    ensures Find(vs, sel) == Err(SeveralVariants) <==> sel == ANY_VARIANT && |vs| > 1
    ensures Find(vs, sel) == Err(NotFound) <==>
            vs == [] || (sel != ANY_VARIANT && forall j :: 0 <= j < |vs| ==> !Selects(sel, vs[j]))
    ensures forall i: nat :: Find(vs, sel) == Ok(i) <==>
              i < |vs| &&
              if sel == ANY_VARIANT then |vs| == 1
              else Selects(sel, vs[i]) && forall j :: 0 <= j < i ==> !Selects(sel, vs[j])
  {
    forall i: nat | i < |vs| && sel != ANY_VARIANT && Selects(sel, vs[i]) &&
                    forall j :: 0 <= j < i ==> !Selects(sel, vs[j])
      ensures Find(vs, sel) == Ok(i)
    {
      FirstSelectedUnique(vs, sel, i);
    }
  }

  // An id alone picks the one variant that carries it.
  lemma FindById(vs: seq<Object>, id: ObjectId, i: nat)
    requires DistinctIds(vs) && i < |vs| && vs[i].id == id
    ensures Find(vs, Selector(Some(id), "")) == Ok(i)
  {
    FindMeaning(vs, Selector(Some(id), ""));
  }

  // A consumer alone picks the first variant that lists it.
  lemma FindByConsumer(vs: seq<Object>, consumer: string, i: nat)
    requires consumer != "" && i < |vs| && consumer in vs[i].usedBy
    requires forall j :: 0 <= j < i ==> consumer !in vs[j].usedBy
    ensures Find(vs, Selector(None, consumer)) == Ok(i)
  {
    FindMeaning(vs, Selector(None, consumer));
  }

  // And a selector that fits nothing finds nothing.
  lemma FindNothing(vs: seq<Object>, sel: Selector)
    requires sel != ANY_VARIANT
    requires forall j :: 0 <= j < |vs| ==> sel.id != Some(vs[j].id) && (sel.consumer == "" || sel.consumer !in vs[j].usedBy)
    ensures Find(vs, sel) == Err(NotFound)
  {
    FindMeaning(vs, sel);
  }

  // Update, patch and delete touch the addressed variant of the addressed
  // name and nothing else.
  ghost predicate SameElsewhere(n: Names, m: Names, name: string) {
    forall k :: k != name ==> At(m, k) == At(n, k)
  }

  lemma UpdateTouchesOneVariant(n: Names, now: int, name: string, sel: Selector, value: Blob,
                                tags: Option<seq<string>>, usedBy: Option<seq<string>>)
    requires Find(At(n, name), sel).Ok?
    ensures var i, r := Find(At(n, name), sel).value, Update(n, now, name, sel, value, tags, usedBy);
            && r.Ok? && SameElsewhere(n, r.value, name)
            && |At(r.value, name)| == |n[name]|
            && (forall j :: 0 <= j < |n[name]| && j != i ==> At(r.value, name)[j] == n[name][j])
            && var was, got := n[name][i], At(r.value, name)[i];
               && got.value == value && got.updatedAt == now
               && Some(got.tags) == (if tags.Some? then tags else Some(was.tags))
               && Some(got.usedBy) == (if usedBy.Some? then usedBy else Some(was.usedBy))
               && (got.id, got.description, got.createdAt) == (was.id, was.description, was.createdAt)
  {
  }

  lemma PatchTouchesOneVariant(n: Names, now: int, name: string, sel: Selector,
                               description: Option<string>, slug: Option<string>, tags: Option<seq<string>>)
    requires Find(At(n, name), sel).Ok? && !Moves(name, slug)
    ensures var i, r := Find(At(n, name), sel).value, Patch(n, now, name, sel, description, slug, tags);
            && r.Ok? && SameElsewhere(n, r.value, name)
            && |At(r.value, name)| == |n[name]|
            && (forall j :: 0 <= j < |n[name]| && j != i ==> At(r.value, name)[j] == n[name][j])
            && var was, got := n[name][i], At(r.value, name)[i];
               && HoldingOf(got) == HoldingOf(was) && got.createdAt == was.createdAt && got.updatedAt == now
               && Some(got.description) == (if description.Some? then description else Some(was.description))
               && Some(got.tags) == (if tags.Some? then tags else Some(was.tags))
  {
  }

  // Deleting the primary promotes the next variant; deleting the only
  // variant removes the name.
  lemma DeleteRemovesOneVariant(n: Names, name: string, sel: Selector)
    requires Find(At(n, name), sel).Ok?
    ensures var i, r := Find(At(n, name), sel).value, Delete(n, name, sel);
            && r.Ok? && SameElsewhere(n, r.value, name)
            && (name in r.value <==> |n[name]| > 1)
            && |At(r.value, name)| == |n[name]| - 1
            && (forall j :: 0 <= j < |n[name]| && j != i ==>
                  n[name][j] == At(r.value, name)[if j < i then j else j - 1])
  {
    var vs, i := n[name], Find(n[name], sel).value;
    var rest := vs[..i] + vs[i + 1..];
    assert Delete(n, name, sel) == Ok(Put(n, name, rest));
    assert At(Put(n, name, rest), name) == rest;
    CutElements(vs, i);
  }

  lemma CutElements(vs: seq<Object>, i: nat)
    requires i < |vs|
    ensures var rest := vs[..i] + vs[i + 1..];
            |rest| == |vs| - 1 && forall j :: 0 <= j < |vs| && j != i ==> vs[j] == rest[if j < i then j else j - 1]
  {
  }

  // A creation is refused exactly for a taken name, and deleting what was
  // created restores the store.
  lemma CreateThenDelete(n: Names, now: int, name: string, value: Blob, usedBy: seq<string>,
                         description: string, tags: seq<string>)
    ensures var r := Create(n, now, name, value, usedBy, description, tags);
            && (r.Ok? <==> name !in n)
            && (r.Ok? ==> && Find(At(r.value, name), ANY_VARIANT) == Ok(0)
                          && HoldingOf(At(r.value, name)[0]) == Holding(SlugId(name), value, usedBy)
                          && Delete(r.value, name, ANY_VARIANT) == Ok(n))
  {
    var r := Create(n, now, name, value, usedBy, description, tags);
    if r.Ok? {
      var vs := r.value[name];
      assert vs[..0] + vs[1..] == [];
      assert r.value - {name} == n;
    }
  }

  // A seeded variant comes last and is found by its id; deleting it by that
  // id restores the store.
  lemma AddThenDelete(n: Names, used: set<string>, now: int, name: string, value: Blob, usedBy: seq<string>, draw: string)
    requires Sound(n, used) && draw !in used
    ensures var r, sel := Add(n, now, name, value, usedBy, draw), Selector(Some(RandomId(draw)), "");
            && (r.Ok? <==> name in n)
            && (r.Ok? ==> && Find(At(r.value, name), sel) == Ok(|n[name]|)
                          && HoldingOf(At(r.value, name)[|n[name]|]) == Holding(RandomId(draw), value, usedBy)
                          && Delete(r.value, name, sel) == Ok(n))
  {
    var r := Add(n, now, name, value, usedBy, draw);
    if r.Ok? {
      var vs := r.value[name];
      AddStaysSound(n, used, now, name, value, usedBy, draw);
      FindById(vs, RandomId(draw), |n[name]|);
      assert vs[..|n[name]|] + vs[|n[name]| + 1..] == n[name];
      assert r.value[name := n[name]] == n;
    }
  }

  // Every randomly drawn id in the store is a draw made so far.
  ghost predicate IdsDrawn(n: Names, used: set<string>) {
    forall k, i :: k in n && 0 <= i < |n[k]| ==> IdDrawn(n[k][i], used)
  }

  ghost predicate IdDrawn(v: Object, used: set<string>) {
    v.id.RandomId? ==> v.id.draw in used
  }

  // What every operation keeps: non-empty variant lists with distinct ids,
  // none of them an id still to be drawn.
  ghost predicate Sound(n: Names, used: set<string>) {
    WellFormed(n) && IdsDrawn(n, used)
  }

  lemma CreateStaysSound(n: Names, used: set<string>, now: int, name: string, value: Blob, usedBy: seq<string>,
                         description: string, tags: seq<string>)
    requires Sound(n, used)
    ensures var r := Create(n, now, name, value, usedBy, description, tags); r.Ok? ==> Sound(r.value, used)
  {
  }

  lemma AddStaysSound(n: Names, used: set<string>, now: int, name: string, value: Blob, usedBy: seq<string>, draw: string)
    requires Sound(n, used) && draw !in used
    ensures var r := Add(n, now, name, value, usedBy, draw); r.Ok? ==> Sound(r.value, used + {draw})
  {
    if name in n {
      var m := Add(n, now, name, value, usedBy, draw).value;
      forall k, i | k in m && 0 <= i < |m[k]| ensures IdDrawn(m[k][i], used + {draw}) {
        if i < |n[k]| { assert IdDrawn(n[k][i], used); }
      }
      forall i, j | 0 <= i < j < |m[name]| ensures m[name][i].id != m[name][j].id {
        assert IdDrawn(n[name][i], used);
      }
    }
  }

  // Replacing one name's variants by others drawn from sound ones.
  lemma PutStaysSound(n: Names, used: set<string>, name: string, vs: seq<Object>)
    requires Sound(n, used) && DistinctIds(vs)
    requires forall i :: 0 <= i < |vs| ==> IdDrawn(vs[i], used)
    ensures Sound(Put(n, name, vs), used)
  {
    var m := Put(n, name, vs);
    forall k, i | k in m && 0 <= i < |m[k]| ensures IdDrawn(m[k][i], used) {
      if k != name { assert IdDrawn(n[k][i], used); }
    }
  }

  lemma UpdateStaysSound(n: Names, used: set<string>, now: int, name: string, sel: Selector, value: Blob,
                         tags: Option<seq<string>>, usedBy: Option<seq<string>>)
    requires Sound(n, used)
    ensures var r := Update(n, now, name, sel, value, tags, usedBy); r.Ok? ==> Sound(r.value, used)
  {
    var r := Update(n, now, name, sel, value, tags, usedBy);
    if r.Ok? {
      var vs, i := n[name], Find(n[name], sel).value;
      assert forall j :: 0 <= j < |vs| ==> IdDrawn(vs[j], used);
      PutStaysSound(n, used, name, vs[i := Revalued(vs[i], now, value, tags, usedBy)]);
    }
  }

  lemma PatchStaysSound(n: Names, used: set<string>, now: int, name: string, sel: Selector,
                        description: Option<string>, slug: Option<string>, tags: Option<seq<string>>)
    requires Sound(n, used)
    ensures var r := Patch(n, now, name, sel, description, slug, tags); r.Ok? ==> Sound(r.value, used)
  {
    var r := Patch(n, now, name, sel, description, slug, tags);
    if r.Ok? {
      var vs, i := n[name], Find(n[name], sel).value;
      assert forall j :: 0 <= j < |vs| ==> IdDrawn(vs[j], used);
      var patched := vs[i := Relabelled(vs[i], now, description, tags)];
      if Moves(name, slug) {
        PutStaysSound(n, used, name, []);
        PutStaysSound(n - {name}, used, slug.value, patched);
      } else {
        PutStaysSound(n, used, name, patched);
      }
    }
  }

  lemma CutStaysSound(vs: seq<Object>, used: set<string>, i: nat)
    requires i < |vs| && DistinctIds(vs) && forall j :: 0 <= j < |vs| ==> IdDrawn(vs[j], used)
    ensures var rest := vs[..i] + vs[i + 1..];
            DistinctIds(rest) && forall j :: 0 <= j < |rest| ==> IdDrawn(rest[j], used)
  {
    var rest := vs[..i] + vs[i + 1..];
    assert forall j :: 0 <= j < |rest| ==> rest[j] == vs[if j < i then j else j + 1];
  }

  lemma DeleteStaysSound(n: Names, used: set<string>, name: string, sel: Selector)
    requires Sound(n, used)
    ensures var r := Delete(n, name, sel); r.Ok? ==> Sound(r.value, used)
  {
    if Delete(n, name, sel).Ok? {
      var vs, i := n[name], Find(n[name], sel).value;
      assert forall j :: 0 <= j < |vs| ==> IdDrawn(vs[j], used);
      CutStaysSound(vs, used, i);
      PutStaysSound(n, used, name, vs[..i] + vs[i + 1..]);
    }
  }

  // -------------------------------------------------------------- conservation

  // What a variant is worth to its readers.
  datatype Holding = Holding(id: ObjectId, value: Blob, usedBy: seq<string>)

  function HoldingOf(v: Object): Holding {
    Holding(v.id, v.value, v.usedBy)
  }

  ghost function HoldingsOf(vs: seq<Object>): multiset<Holding> {
    multiset(Map(vs, HoldingOf))
  }

  // Everything held under the given names, with multiplicity.
  ghost function HoldingsUnder(n: Names, names: set<string>): multiset<Holding>
    requires names <= n.Keys
  {
    if names == {} then multiset{}
    else
      var k :| k in names;
      HoldingsOf(n[k]) + HoldingsUnder(n, names - {k})
  }

  ghost function Holdings(n: Names): multiset<Holding> {
    HoldingsUnder(n, n.Keys)
  }

  lemma {:induction false} HoldingsSplit(n: Names, names: set<string>, name: string)
    requires name in names && names <= n.Keys
    ensures HoldingsUnder(n, names) == HoldingsOf(n[name]) + HoldingsUnder(n, names - {name})
  {
    var k :| k in names && HoldingsUnder(n, names) == HoldingsOf(n[k]) + HoldingsUnder(n, names - {k});
    if k != name {
      HoldingsSplit(n, names - {k}, name);
      HoldingsSplit(n, names - {name}, k);
      assert names - {k} - {name} == names - {name} - {k};
    }
  }

  lemma {:induction false} HoldingsAgree(n: Names, m: Names, names: set<string>)
    requires names <= n.Keys && names <= m.Keys
    requires forall k :: k in names ==> n[k] == m[k]
    ensures HoldingsUnder(n, names) == HoldingsUnder(m, names)
  {
    if names != {} {
      var k :| k in names;
      HoldingsSplit(n, names, k);
      HoldingsSplit(m, names, k);
      HoldingsAgree(n, m, names - {k});
    }
  }

  // A rename moves the whole variant sequence in order, leaves every other
  // name alone and conserves what the store holds; it is refused exactly
  // when the name or variant cannot be found or the new slug is taken.
  lemma RenameConserves(n: Names, now: int, name: string, sel: Selector, description: Option<string>,
                        slug: string, tags: Option<seq<string>>)
    requires slug != name
    ensures var r := Patch(n, now, name, sel, description, Some(slug), tags);
            && (r.Ok? <==> Find(At(n, name), sel).Ok? && slug !in n)
            && (r.Ok? ==>
                  && Holdings(r.value) == Holdings(n)
                  && name !in r.value
                  && Map(At(r.value, slug), HoldingOf) == Map(At(n, name), HoldingOf)
                  && (forall j :: 0 <= j < |n[name]| && j != Find(n[name], sel).value ==>
                        r.value[slug][j] == n[name][j])
                  && forall k :: k != name && k != slug ==> At(r.value, k) == At(n, k))
  {
    var r := Patch(n, now, name, sel, description, Some(slug), tags);
    if r.Ok? {
      var others := n.Keys - {name};
      assert r.value.Keys == others + {slug} && r.value.Keys - {slug} == others;
      HoldingsSplit(n, n.Keys, name);
      HoldingsSplit(r.value, r.value.Keys, slug);
      HoldingsAgree(n, r.value, others);
      assert Map(r.value[slug], HoldingOf) == Map(n[name], HoldingOf);
    }
  }
}
