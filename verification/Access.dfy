// Who may do what: the decisions the request handlers take before and after
// they touch the store.
module Access {
  import opened Prelude
  import opened Sealing
  import opened Variants
  import opened Machine
  import opened Runs
  import D = Directory
  import T = Tokens
  import Tags

  // The part of the server a request looks at.
  datatype Site = Site(book: D.Book, keys: T.Keys, owner: string)

  function SiteOf(s: State): Site {
    Site(s.book, s.keys, s.owner)
  }

  predicate MayWrite(site: Site, now: int, token: string) {
    token != "" && T.ValidWriteToken(site.keys.writeTokens, token, now)
  }

  // A request may name a variant by id or by consumer, not by both.
  predicate Ambiguous(sel: Selector) {
    sel.id.Some? && sel.consumer != ""
  }

  // The lookup behind a read; consumer is empty for a write token.
  function Lookup(n: Names, slug: string, sel: Selector, consumer: string): Result<Blob> {
    if Ambiguous(sel) then Err(BadRequest)
    else match Find(At(n, slug), sel)
      case Err(e) => Err(e)
      case Ok(i) =>
        var obj := At(n, slug)[i];
        if consumer != "" && consumer !in obj.usedBy then Err(NotFound) else Ok(obj.value)
  }

  // Whom a credential reads as: the empty name for a write token.
  ghost function ReaderOf(site: Site, now: int, credential: string): Result<string> {
    if MayWrite(site, now, credential) then Ok("")
    else if credential == "" then Err(Unauthorized)
    else match T.Bearer(site.keys.table, credential, now)
      case Some(consumer) => Ok(consumer)
      case None => Err(Unauthorized)
  }

  ghost function Get(site: Site, now: int, credential: string, slug: string, sel: Selector): Result<Blob> {
    match ReaderOf(site, now, credential)
    case Err(e) => Err(e)
    case Ok(consumer) => Lookup(site.book.names, slug, sel, consumer)
  }

  function TagsFor(tags: seq<string>): Result<seq<string>> {
    if (forall t :: t in tags ==> Tags.ValidTag(Tags.Lower(t))) && |Tags.Canonical(tags)| <= Tags.MAX_TAGS
    then Ok(Tags.Canonical(tags))
    else Err(BadRequest)
  }

  function OptionalTagsFor(tags: Option<seq<string>>): Result<Option<seq<string>>> {
    match tags
    case None => Ok(None)
    case Some(t) =>
      match TagsFor(t)
      case Ok(c) => Ok(Some(c))
      case Err(e) => Err(e)
  }

  function CreateRequest(site: Site, now: int, token: string, slug: string, value: Blob, usedBy: seq<string>,
                         description: string, tags: seq<string>): Result<D.Book>
    requires NonEmpty(site.book.names)
  {
    if !MayWrite(site, now, token) then Err(Unauthorized)
    else if slug == "" || EmptyBlob(value) then Err(BadRequest)
    else match TagsFor(tags)
      case Err(e) => Err(e)
      case Ok(c) => D.Try(site.book, now, D.Create(slug, value, usedBy, description, c))
  }

  function UpdateRequest(site: Site, now: int, token: string, slug: string, sel: Selector, value: Blob,
                         tags: Option<seq<string>>, usedBy: Option<seq<string>>): Result<D.Book>
    requires NonEmpty(site.book.names)
  {
    if !MayWrite(site, now, token) then Err(Unauthorized)
    else if EmptyBlob(value) then Err(BadRequest)
    else match OptionalTagsFor(tags)
      case Err(e) => Err(e)
      case Ok(c) =>
        if Ambiguous(sel) then Err(BadRequest)
        else D.Try(site.book, now, D.Update(slug, sel, value, c, usedBy))
  }

  // What the caller is told and the book left behind.
  function Settled(r: Result<D.Book>, b: D.Book): (Option<Failure>, D.Book) {
    match r
    case Ok(b') => (None, b')
    case Err(e) => (Some(e), b)
  }

  // ------------------------------------------------------------- read scope

  // The two stores hold the same objects as far as consumer c is named.
  ghost predicate SameFor(n: Names, m: Names, c: string)
    requires NonEmpty(n) && NonEmpty(m)
  {
    forall k ::
      (k in n && c in n[k][0].usedBy) || (k in m && c in m[k][0].usedBy) ==> k in n && k in m && n[k] == m[k]
  }

  // A read token's answers depend on nothing but the objects that name its
  // consumer, whatever else the two stores hold.
  lemma ReadScope(a: Site, b: Site, now: int, credential: string, c: string, slug: string, sel: Selector)
    requires OnlyPrimaries(a.book.names) && OnlyPrimaries(b.book.names)
    requires a.keys == b.keys && SameFor(a.book.names, b.book.names, c)
    requires !MayWrite(a, now, credential) && T.Bearer(a.keys.table, credential, now) == Some(c) && c != ""
    ensures Get(a, now, credential, slug, sel) == Get(b, now, credential, slug, sel)
  {
    FindMeaning(At(a.book.names, slug), sel);
    FindMeaning(At(b.book.names, slug), sel);
  }

  // The i-th variant is the one a selector means: the only one, or the first
  // that carries the id or names the consumer.
  ghost predicate Meant(vs: seq<Object>, sel: Selector, i: nat) {
    i < |vs| &&
    if sel == ANY_VARIANT then |vs| == 1
    else Selects(sel, vs[i]) && forall j :: 0 <= j < i ==> !Selects(sel, vs[j])
  }

  // A read token gets a value exactly when the selector is not ambiguous and
  // the variant it means names the token's consumer, and then that variant's
  // value. It is told that there are several variants exactly for a bare name
  // that holds several; in every other case it learns nothing.
  lemma FoundIff(site: Site, now: int, credential: string, c: string, slug: string, sel: Selector)
    requires !MayWrite(site, now, credential) && credential != ""
    requires T.Bearer(site.keys.table, credential, now) == Some(c) && c != ""
    ensures var vs, r := At(site.book.names, slug), Get(site, now, credential, slug, sel);
            && (forall i: nat :: Meant(vs, sel, i) && !Ambiguous(sel) && c in vs[i].usedBy ==> r == Ok(vs[i].value))
            && (r.Ok? ==> !Ambiguous(sel) && exists i: nat :: Meant(vs, sel, i) && c in vs[i].usedBy)
            && (r == Err(BadRequest) <==> Ambiguous(sel))
            && (r == Err(SeveralVariants) <==> sel == ANY_VARIANT && |vs| > 1)
            && (r.Err? ==> r.error in {BadRequest, SeveralVariants, NotFound})
  {
    var vs := At(site.book.names, slug);
    FindMeaning(vs, sel);
    forall i: nat | Meant(vs, sel, i) ensures Find(vs, sel) == Ok(i) {
    }
    if Find(vs, sel).Ok? {
      assert Meant(vs, sel, Find(vs, sel).value);
    }
  }

  // A write token gets the variant the selector means, whoever it names.
  lemma WriterFoundIff(site: Site, now: int, token: string, slug: string, sel: Selector)
    requires MayWrite(site, now, token)
    ensures var vs, r := At(site.book.names, slug), Get(site, now, token, slug, sel);
            && (forall i: nat :: Meant(vs, sel, i) && !Ambiguous(sel) ==> r == Ok(vs[i].value))
            && (r.Ok? ==> !Ambiguous(sel) && exists i: nat :: Meant(vs, sel, i))
            && (r == Err(BadRequest) <==> Ambiguous(sel))
            && (r == Err(SeveralVariants) <==> sel == ANY_VARIANT && |vs| > 1)
            && (r.Err? ==> r.error in {BadRequest, SeveralVariants, NotFound})
  {
    var vs := At(site.book.names, slug);
    FindMeaning(vs, sel);
    forall i: nat | Meant(vs, sel, i) ensures Find(vs, sel) == Ok(i) {
    }
    if Find(vs, sel).Ok? {
      assert Meant(vs, sel, Find(vs, sel).value);
    }
  }

  // A credential that is neither reads nothing, the empty one included; and
  // only a valid write token writes anything.
  lemma UnauthorizedIff(site: Site, now: int, credential: string, slug: string, sel: Selector)
    ensures Get(site, now, credential, slug, sel) == Err(Unauthorized) <==>
            credential == "" || (!T.ValidWriteToken(site.keys.writeTokens, credential, now) &&
                                 T.Bearer(site.keys.table, credential, now).None?)
  {
    FindMeaning(At(site.book.names, slug), sel);
  }

  // Why a write is refused, in the order in which it is checked; an accepted
  // one is the store's.
  lemma WriteRefusals(site: Site, now: int, token: string, slug: string, sel: Selector, value: Blob, usedBy: seq<string>,
                      description: string, tags: seq<string>, newTags: Option<seq<string>>, newUsedBy: Option<seq<string>>)
    requires NonEmpty(site.book.names)
    ensures var r := CreateRequest(site, now, token, slug, value, usedBy, description, tags);
            if token == "" || !T.ValidWriteToken(site.keys.writeTokens, token, now) then r == Err(Unauthorized)
            else if slug == "" || value == Raw([]) || TagsFor(tags).Err? then r == Err(BadRequest)
            else if slug in site.book.names then r == Err(AlreadyExists)
            else r.Ok?
    ensures var r := UpdateRequest(site, now, token, slug, sel, value, newTags, newUsedBy);
            if token == "" || !T.ValidWriteToken(site.keys.writeTokens, token, now) then r == Err(Unauthorized)
            else if value == Raw([]) || (newTags.Some? && TagsFor(newTags.value).Err?) then r == Err(BadRequest)
            else if sel.id.Some? && sel.consumer != "" then r == Err(BadRequest)
            else r.Ok? <==> Find(At(site.book.names, slug), sel).Ok?
  {
  }

  // The documented rule is that a name out of scope answers as an unknown one
  // does. That is so except for a bare name that holds several variants,
  // which answers that it does.
  lemma OutOfScopeLooksUnknownIff(site: Site, now: int, credential: string, c: string, slug: string, sel: Selector)
    requires !MayWrite(site, now, credential) && credential != ""
    requires T.Bearer(site.keys.table, credential, now) == Some(c) && c != ""
    requires forall v :: v in At(site.book.names, slug) ==> c !in v.usedBy
    ensures var without := site.(book := site.book.(names := site.book.names - {slug}));
            Get(site, now, credential, slug, sel) == Get(without, now, credential, slug, sel) <==>
            sel != ANY_VARIANT || |At(site.book.names, slug)| <= 1
  {
    var vs := At(site.book.names, slug);
    assert At(site.book.names - {slug}, slug) == [];
    FindMeaning(vs, sel);
  }

  // A server with two variants of one name, both for one consumer.
  const CREATE := Step(0, OnBook(D.Create("s", Raw([]), ["a"], "", [])))
  const SEED := Step(0, OnBook(D.AddVariant("s", Raw([]), ["a"], "v")))
  const SEEDED := Next(Next(EMPTY, CREATE), SEED)

  lemma SeedingRuns()
    ensures Inv(EMPTY) && Inv(Next(EMPTY, CREATE)) && Inv(SEEDED)
    ensures Enabled(EMPTY, CREATE.op) && Enabled(Next(EMPTY, CREATE), SEED.op)
    ensures SEEDED.keys == T.Keys(map[], map[]) && SEEDED.used == {"v"}
  {
    NewServerIsPlain();
    StepKeepsInv(EMPTY, CREATE);
    StepKeepsInv(Next(EMPTY, CREATE), SEED);
  }

  lemma SeededHoldsTwo()
    ensures var n := SEEDED.book.names; "t" !in n && "s" in n && |n["s"]| == 2
    ensures forall v :: v in SEEDED.book.names["s"] ==> v.usedBy == ["a"]
  {
  }

  // A run that ends in such an answer: two variants seeded for one consumer,
  // and a token issued to another. The bare name answers that it holds
  // several, while a name nobody created answers that there is none.
  lemma SeveralVariantsShow() returns (steps: seq<Step>, credential: string)
    ensures Inv(EMPTY) && IsRun(EMPTY, 0, steps)
    ensures var site := SiteOf(End(EMPTY, 0, steps));
            && T.Bearer(site.keys.table, credential, 0) == Some("c")
            && (forall v :: v in At(site.book.names, "s") ==> "c" !in v.usedBy)
            && Get(site, 0, credential, "s", ANY_VARIANT) == Err(SeveralVariants)
            && Get(site, 0, credential, "t", ANY_VARIANT) == Err(NotFound)
  {
    var draw := seq(T.DRAW_LENGTH, _ => 'd');
    credential := T.ValueOf("c", draw);
    SeedingRuns();
    SeededHoldsTwo();
    var issue := Step(0, OnKeys(T.IssueToken("c", "", 1, "id", draw)));
    IssuesLast(issue);
    steps := [CREATE] + ([SEED] + ([issue] + []));
    StepThenRun(Next(EMPTY, CREATE), 0, SEED, [issue] + []);
    StepThenRun(EMPTY, 0, CREATE, [SEED] + ([issue] + []));
    var site := SiteOf(Next(SEEDED, issue));
    BareReadOfSeveral(site, credential, "c", "s");
    BareReadOfSeveral(site, credential, "c", "t");
  }

  lemma IssuesLast(issue: Step)
    requires issue.now == 0 && issue.op.OnKeys? && issue.op.keys.IssueToken? && issue.op.keys.ttl >= 0
    requires T.Drawn(issue.op.keys, {"v"})
    ensures Inv(SEEDED) && IsRun(SEEDED, 0, [issue] + []) && End(SEEDED, 0, [issue] + []) == Next(SEEDED, issue)
    ensures var next, op := Next(SEEDED, issue), issue.op.keys;
            && next.book == SEEDED.book && next.keys.writeTokens == map[]
            && T.Bearer(next.keys.table, T.ValueOf(op.consumer, op.draw), 0) == Some(op.consumer)
  {
    SeedingRuns();
    StepKeepsInv(SEEDED, issue);
    StepThenRun(SEEDED, 0, issue, []);
    T.NewValueReads(SEEDED.keys, SEEDED.used, 0, issue.op.keys, 0);
  }

  lemma BareReadOfSeveral(site: Site, credential: string, c: string, slug: string)
    requires site.keys.writeTokens == map[] && credential != "" && c != ""
    requires T.Bearer(site.keys.table, credential, 0) == Some(c)
    ensures |At(site.book.names, slug)| > 1 ==> Get(site, 0, credential, slug, ANY_VARIANT) == Err(SeveralVariants)
    ensures slug !in site.book.names ==> Get(site, 0, credential, slug, ANY_VARIANT) == Err(NotFound)
  {
  }
}
