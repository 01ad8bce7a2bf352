// The write and read flows of the command line: look recipients up one by
// one, seal, write; fetch, unseal. Other clients' requests may come between
// the requests of one write.
module Cli {
  import opened Prelude
  import opened Sealing
  import opened Variants
  import opened Access
  import opened Handlers
  import opened Server
  import D = Directory

  // ---------------------------------------------------------- write options

  datatype WriteOption =
    | WithTags(tags: seq<string>)
    | WithUsedBy(usedBy: seq<string>)
    | WithVariant(id: Option<ObjectId>)
    | WithConsumer(consumer: string)
    | WithDescription(description: string)
    | WithSlug(slug: string)
    | WithKeepReadableCopy

  datatype WriteOptions = WriteOptions(
    tags: Option<seq<string>>,
    usedBy: Option<seq<string>>,
    keepReadableCopy: bool,
    description: Option<string>,
    slug: Option<string>,
    variantId: Option<ObjectId>,
    consumer: string)

  const UNSET := WriteOptions(None, None, false, None, None, None, "")

  function Applied(w: WriteOptions, o: WriteOption): WriteOptions {
    match o
    case WithTags(t) => w.(tags := Some(t))
    case WithUsedBy(u) => w.(usedBy := Some(u))
    case WithVariant(id) => w.(variantId := id)
    case WithConsumer(c) => w.(consumer := c)
    case WithDescription(d) => w.(description := Some(d))
    case WithSlug(s) => w.(slug := Some(s))
    case WithKeepReadableCopy => w.(keepReadableCopy := true)
  }

  function Collected(opts: seq<WriteOption>): WriteOptions {
    if opts == [] then UNSET
    else Applied(Collected(opts[..|opts| - 1]), opts[|opts| - 1])
  }

  method NewWriteOptions(opts: seq<WriteOption>) returns (w: WriteOptions)
    ensures w == Collected(opts)
  {
    w := UNSET;
    for i := 0 to |opts|
      invariant w == Collected(opts[..i])
    {
      assert opts[..i + 1][..i] == opts[..i];
      w := Applied(w, opts[i]);
    }
    assert opts[..|opts|] == opts;
  }

  predicate SameKind(a: WriteOption, b: WriteOption) {
    match a
    case WithTags(_) => b.WithTags?
    case WithUsedBy(_) => b.WithUsedBy?
    case WithVariant(_) => b.WithVariant?
    case WithConsumer(_) => b.WithConsumer?
    case WithDescription(_) => b.WithDescription?
    case WithSlug(_) => b.WithSlug?
    case WithKeepReadableCopy => b.WithKeepReadableCopy?
  }

  // The options ask for what o says.
  predicate Reflects(w: WriteOptions, o: WriteOption) {
    match o
    case WithTags(t) => w.tags == Some(t)
    case WithUsedBy(u) => w.usedBy == Some(u)
    case WithVariant(id) => w.variantId == id
    case WithConsumer(c) => w.consumer == c
    case WithDescription(d) => w.description == Some(d)
    case WithSlug(s) => w.slug == Some(s)
    case WithKeepReadableCopy => w.keepReadableCopy
  }

  // Of several options of one kind the last wins; the readable copy is asked
  // for once it is asked for anywhere.
  lemma {:induction false} LastOptionWins(opts: seq<WriteOption>, i: nat)
    requires i < |opts|
    ensures (forall j :: i < j < |opts| ==> !SameKind(opts[j], opts[i])) ==> Reflects(Collected(opts), opts[i])
    ensures opts[i].WithKeepReadableCopy? ==> Collected(opts).keepReadableCopy
  {
    var front := opts[..|opts| - 1];
    if i < |front| {
      LastOptionWins(front, i);
      assert forall j :: 0 <= j < |front| ==> front[j] == opts[j];
    }
  }

  // What no option is about stays unset.
  lemma {:induction false} OthersStayUnset(opts: seq<WriteOption>, o: WriteOption)
    requires forall j :: 0 <= j < |opts| ==> !SameKind(opts[j], o)
    ensures Reflects(Collected(opts), o) <==> Reflects(UNSET, o)
  {
    if opts != [] {
      var front, last := opts[..|opts| - 1], opts[|opts| - 1];
      assert forall j :: 0 <= j < |front| ==> front[j] == opts[j];
      assert !SameKind(last, o);
      OthersStayUnset(front, o);
    }
  }

  // ------------------------------------------------------ recipients

  // What one request of a flow meets: the server, and its clock. Other
  // clients' requests may come between one request and the next; after the
  // last glance nothing changes any more.
  datatype Glance = Glance(site: Site, now: int)

  function MetAt(met: seq<Glance>, k: nat): Glance
    requires met != []
  {
    met[Min(k, |met| - 1)]
  }

  function ConsumerKey(g: Glance, token: string, name: string): Result<string> {
    var d := g.site.book.entries;
    if !MayWrite(g.site, g.now, token) then Err(Unauthorized)
    else if name in d && d[name].Some? then Ok(d[name].value)
    else Err(NoConsumerKey(name))
  }

  // Every name's key, each as its own request finds it, or the failure of
  // the first name without one.
  function KeysFor(met: seq<Glance>, token: string, names: seq<string>): Result<seq<string>>
    requires met != []
  {
    if names == [] then Ok([])
    else match KeysFor(met, token, names[..|names| - 1])
      case Err(e) => Err(e)
      case Ok(keys) =>
        match ConsumerKey(MetAt(met, |names| - 1), token, names[|names| - 1])
        case Err(e) => Err(e)
        case Ok(key) => Ok(keys + [key])
  }

  function OwnerKey(g: Glance, token: string): Result<string> {
    if !MayWrite(g.site, g.now, token) then Err(Unauthorized)
    else if g.site.owner == "" then Err(NoOwnerKey)
    else Ok(g.site.owner)
  }

  function WithOwnerKey(g: Glance, token: string, keep: bool, r: Result<seq<string>>): Result<seq<string>> {
    if r.Err? || !keep then r
    else match OwnerKey(g, token)
      case Err(e) => Err(e)
      case Ok(key) => Ok(r.value + [key])
  }

  // How many requests look consumers up.
  function Lookups(recipients: seq<string>, usedBy: seq<string>): nat {
    if recipients != [] then 0 else |usedBy|
  }

  // How many requests come before the write itself.
  function Preparation(keep: bool, recipients: seq<string>, usedBy: seq<string>): nat {
    Lookups(recipients, usedBy) + if keep then 1 else 0
  }

  // A flow's requests come one after the other: a lookup for each consumer
  // unless recipients are given, then the owner's key if it is asked for, and
  // the write behind them.
  lemma RequestsInOrder(keep: bool, recipients: seq<string>, usedBy: seq<string>)
    ensures recipients == [] ==> Lookups(recipients, usedBy) == |usedBy|
    ensures recipients != [] ==> Lookups(recipients, usedBy) == 0
    ensures keep ==> Preparation(keep, recipients, usedBy) == Lookups(recipients, usedBy) + 1
    ensures !keep ==> Preparation(keep, recipients, usedBy) == Lookups(recipients, usedBy)
  {
  }

  // Whom a value is sealed to: the explicit recipients if any, else the keys
  // of the named consumers; and the owner when a readable copy is kept.
  function RecipientsFor(met: seq<Glance>, token: string, keep: bool, recipients: seq<string>,
                         usedBy: seq<string>): Result<seq<string>>
    requires met != []
  {
    WithOwnerKey(MetAt(met, Lookups(recipients, usedBy)), token, keep,
                 if recipients != [] then Ok(recipients) else KeysFor(met, token, usedBy))
  }

  function SealedTo(scheme: Scheme, value: Bytes, keys: Result<seq<string>>): Result<Blob> {
    match keys
    case Err(e) => Err(e)
    case Ok(k) => Seal(scheme, value, k)
  }

  // The consumers a write names, none if it leaves them as they are.
  function NewConsumers(w: WriteOptions): seq<string> {
    if w.usedBy.Some? then w.usedBy.value else []
  }

  // What the write of an injection meets.
  function InjectMeets(met: seq<Glance>, recipients: seq<string>, usedBy: seq<string>, w: WriteOptions): Glance
    requires met != []
  {
    MetAt(met, Preparation(w.keepReadableCopy, recipients, usedBy))
  }

  // What the write of an update meets.
  function UpdateMeets(met: seq<Glance>, recipients: seq<string>, w: WriteOptions): Glance
    requires met != []
  {
    MetAt(met, Preparation(w.keepReadableCopy, recipients, NewConsumers(w)))
  }

  function Inject(scheme: Scheme, met: seq<Glance>, token: string, id: string, value: Bytes,
                  recipients: seq<string>, usedBy: seq<string>, description: string, w: WriteOptions): Result<D.Book>
    requires met != [] && NonEmpty(InjectMeets(met, recipients, usedBy, w).site.book.names)
  {
    var g := InjectMeets(met, recipients, usedBy, w);
    match SealedTo(scheme, value, RecipientsFor(met, token, w.keepReadableCopy, recipients, usedBy))
    case Err(e) => Err(e)
    case Ok(blob) =>
      CreateRequest(g.site, g.now, token, id, blob, usedBy, description, if w.tags.Some? then w.tags.value else [])
  }

  function Update(scheme: Scheme, met: seq<Glance>, token: string, id: string, value: Bytes,
                  recipients: seq<string>, w: WriteOptions): Result<D.Book>
    requires met != [] && NonEmpty(UpdateMeets(met, recipients, w).site.book.names)
  {
    var g := UpdateMeets(met, recipients, w);
    match SealedTo(scheme, value, RecipientsFor(met, token, w.keepReadableCopy, recipients, NewConsumers(w)))
    case Err(e) => Err(e)
    case Ok(blob) => UpdateRequest(g.site, g.now, token, id, Selector(w.variantId, w.consumer), blob, w.tags, w.usedBy)
  }

  datatype Config = Config(token: string, consumerToken: string)

  // A write token, when set, always takes priority.
  function Credential(cfg: Config): string {
    if cfg.token != "" then cfg.token else cfg.consumerToken
  }

  ghost function GetPlain(scheme: Scheme, site: Site, now: int, cfg: Config, id: string,
                          identities: seq<string>, sel: Selector): Result<Bytes>
  {
    match Get(site, now, Credential(cfg), id, sel)
    case Err(e) => Err(e)
    case Ok(blob) => Unseal(scheme, blob, identities)
  }

  // What is made of an answer: it is opened, or the failure stands.
  function Opened(scheme: Scheme, r: Result<Blob>, identities: seq<string>): Result<Bytes> {
    match r
    case Err(e) => Err(e)
    case Ok(blob) => Unseal(scheme, blob, identities)
  }

  // A configured write token is what is sent, whatever consumer token stands
  // beside it; the consumer token serves only where there is none.
  lemma WriteTokenIsSent(scheme: Scheme, site: Site, now: int, token: string, one: string, other: string, id: string,
                         identities: seq<string>, sel: Selector)
    ensures token != "" ==>
              && GetPlain(scheme, site, now, Config(token, one), id, identities, sel) ==
                 Opened(scheme, Get(site, now, token, id, sel), identities)
              && GetPlain(scheme, site, now, Config(token, one), id, identities, sel) ==
                 GetPlain(scheme, site, now, Config(token, other), id, identities, sel)
    ensures GetPlain(scheme, site, now, Config("", one), id, identities, sel) ==
            Opened(scheme, Get(site, now, one, id, sel), identities)
  {
  }

  // ------------------------------------------------------------- the flows

  method ResolveRecipients(met: seq<Glance>, token: string, recipients: seq<string>, usedBy: seq<string>)
    returns (r: Result<seq<string>>)
    requires met != []
    ensures r == if recipients != [] then Ok(recipients) else KeysFor(met, token, usedBy)
  {
    if |recipients| > 0 {
      return Ok(recipients);
    }
    var resolved := [];
    for i := 0 to |usedBy|
      invariant KeysFor(met, token, usedBy[..i]) == Ok(resolved)
    {
      assert usedBy[..i + 1][..i] == usedBy[..i];
      var key := ConsumerKey(MetAt(met, i), token, usedBy[i]);
      if key.Err? {
        FirstFailureStands(met, token, usedBy, i + 1);
        return Err(key.error);
      }
      resolved := resolved + [key.value];
    }
    assert usedBy[..|usedBy|] == usedBy;
    return Ok(resolved);
  }

  lemma {:induction false} FirstFailureStands(met: seq<Glance>, token: string, names: seq<string>, n: nat)
    requires met != [] && n <= |names| && KeysFor(met, token, names[..n]).Err?
    ensures KeysFor(met, token, names) == KeysFor(met, token, names[..n])
    decreases |names|
  {
    if n < |names| {
      var front := names[..|names| - 1];
      assert front[..n] == names[..n];
      FirstFailureStands(met, token, front, n);
    } else {
      assert names[..n] == names;
    }
  }

  // Everything that comes before the write, the sealing included.
  method Prepare(scheme: Scheme, met: seq<Glance>, token: string, value: Bytes, keep: bool, recipients: seq<string>,
                 usedBy: seq<string>) returns (r: Result<Blob>)
    requires met != []
    ensures r == SealedTo(scheme, value, RecipientsFor(met, token, keep, recipients, usedBy))
  {
    var keys := ResolveRecipients(met, token, recipients, usedBy);
    if keys.Err? {
      return Err(keys.error);
    }
    if keep {
      var owner := OwnerKey(MetAt(met, Lookups(recipients, usedBy)), token);
      if owner.Err? {
        return Err(owner.error);
      }
      keys := Ok(keys.value + [owner.value]);
    }
    return Seal(scheme, value, keys.value);
  }

  // Whatever fails on the way, the server is left as the write met it; the
  // requests before the write change nothing.
  method RunInject(scheme: Scheme, met: seq<Glance>, s: Store, now: int, token: string, id: string, value: Bytes,
                   recipients: seq<string>, usedBy: seq<string>, description: string, opts: seq<WriteOption>)
    returns (refused: Option<Failure>)
    requires s.Shape() && met != []
    requires InjectMeets(met, recipients, usedBy, Collected(opts)) == Glance(SiteView(s), now)
    modifies s`objects, s`consumers
    ensures s.Shape()
    ensures (refused, s.BookView()) ==
            Settled(Inject(scheme, met, token, id, value, recipients, usedBy, description, Collected(opts)), old(s.BookView()))
  {
    var w := NewWriteOptions(opts);
    var sealed := Prepare(scheme, met, token, value, w.keepReadableCopy, recipients, usedBy);
    if sealed.Err? {
      return Some(sealed.error);
    }
    refused := HandleCreate(s, now, token, id, sealed.value, usedBy, description,
                            if w.tags.Some? then w.tags.value else []);
  }

  method RunUpdate(scheme: Scheme, met: seq<Glance>, s: Store, now: int, token: string, id: string, value: Bytes,
                   recipients: seq<string>, opts: seq<WriteOption>)
    returns (refused: Option<Failure>)
    requires s.Shape() && met != []
    requires UpdateMeets(met, recipients, Collected(opts)) == Glance(SiteView(s), now)
    modifies s`objects, s`extra, s`consumers
    ensures s.Shape()
    ensures (refused, s.BookView()) ==
            Settled(Update(scheme, met, token, id, value, recipients, Collected(opts)), old(s.BookView()))
  {
    var w := NewWriteOptions(opts);
    var usedBy := [];
    if w.usedBy.Some? {
      usedBy := w.usedBy.value;
    }
    var sealed := Prepare(scheme, met, token, value, w.keepReadableCopy, recipients, usedBy);
    if sealed.Err? {
      return Some(sealed.error);
    }
    refused := HandleUpdate(s, now, token, id, Selector(w.variantId, w.consumer), sealed.value, w.tags, w.usedBy);
  }

  method RunGet(scheme: Scheme, s: Store, now: int, cfg: Config, id: string, identities: seq<string>, sel: Selector)
    returns (r: Result<Bytes>)
    requires s.TokenShape()
    ensures r == GetPlain(scheme, SiteView(s), now, cfg, id, identities, sel)
  {
    var credential := cfg.token;
    if credential == "" {
      credential := cfg.consumerToken;
    }
    var sealed := HandleGet(s, now, credential, id, sel);
    if sealed.Err? {
      return Err(sealed.error);
    }
    return Unseal(scheme, sealed.value, identities);
  }
}
