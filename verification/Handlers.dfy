// The request handlers over a live store.
module Handlers {
  import opened Prelude
  import opened Sealing
  import opened Variants
  import opened Access
  import opened Server
  import T = Tokens
  import Tags

  ghost function SiteView(s: Store): Site
    reads s, s.consumerTokens.Values
  {
    Site(s.BookView(), s.KeysView(), s.ownerPublicKey)
  }

  method RequireWriteToken(s: Store, now: int, token: string) returns (ok: bool)
    ensures ok == MayWrite(SiteView(s), now, token)
  {
    if token == "" {
      return false;
    }
    ok := s.ValidateToken(now, token);
  }

  // The lookup and the scope check that follows it.
  method Serve(s: Store, slug: string, sel: Selector, consumer: string) returns (r: Result<Blob>)
    ensures r == Lookup(s.NamesView(), slug, sel, consumer)
  {
    if sel.id.Some? && sel.consumer != "" {
      return Err(BadRequest);
    }
    var found := s.FindVariant(slug, sel);
    if found.Err? {
      return Err(found.error);
    }
    var obj := s.VariantsOf(slug)[found.value];
    if consumer != "" && consumer !in obj.usedBy {
      return Err(NotFound);
    }
    return Ok(obj.value);
  }

  // Whom a credential reads as: the empty name for a write token.
  method Reader(s: Store, now: int, credential: string) returns (r: Result<string>)
    requires s.TokenShape()
    ensures r == ReaderOf(SiteView(s), now, credential)
  {
    var writer := RequireWriteToken(s, now, credential);
    if writer {
      return Ok("");
    }
    if credential == "" {
      return Err(Unauthorized);
    }
    T.LookUpFindsBearer(s.TableView(), s.consumerTokenValues, credential, now);
    var bound := s.ConsumerForToken(now, credential);
    if bound.value.None? {
      return Err(Unauthorized);
    }
    return Ok(bound.value.value);
  }

  method HandleGet(s: Store, now: int, credential: string, slug: string, sel: Selector) returns (r: Result<Blob>)
    requires s.TokenShape()
    ensures r == Get(SiteView(s), now, credential, slug, sel)
  {
    var consumer := Reader(s, now, credential);
    if consumer.Err? {
      return Err(consumer.error);
    }
    r := Serve(s, slug, sel, consumer.value);
  }

  method HandleCreate(s: Store, now: int, token: string, slug: string, value: Blob, usedBy: seq<string>,
                      description: string, tags: seq<string>)
    returns (refused: Option<Failure>)
    requires s.Shape()
    modifies s`objects, s`consumers
    ensures s.Shape()
    ensures (refused, s.BookView()) ==
            Settled(CreateRequest(old(SiteView(s)), now, token, slug, value, usedBy, description, tags), old(s.BookView()))
  {
    var ok := RequireWriteToken(s, now, token);
    if !ok {
      return Some(Unauthorized);
    }
    if slug == "" || EmptyBlob(value) {
      return Some(BadRequest);
    }
    var normalized := Tags.Normalize(tags);
    if normalized.Err? {
      return Some(normalized.error);
    }
    refused := s.CreateObject(now, slug, value, usedBy, description, normalized.value);
  }

  method NormalizeOptional(tags: Option<seq<string>>) returns (r: Result<Option<seq<string>>>)
    ensures r == OptionalTagsFor(tags)
  {
    if tags.None? {
      return Ok(None);
    }
    var normalized := Tags.Normalize(tags.value);
    if normalized.Err? {
      return Err(normalized.error);
    }
    return Ok(Some(normalized.value));
  }

  method HandleUpdate(s: Store, now: int, token: string, slug: string, sel: Selector, value: Blob,
                      tags: Option<seq<string>>, usedBy: Option<seq<string>>)
    returns (refused: Option<Failure>)
    requires s.Shape()
    modifies s`objects, s`extra, s`consumers
    ensures s.Shape()
    ensures (refused, s.BookView()) ==
            Settled(UpdateRequest(old(SiteView(s)), now, token, slug, sel, value, tags, usedBy), old(s.BookView()))
  {
    var ok := RequireWriteToken(s, now, token);
    if !ok {
      return Some(Unauthorized);
    }
    if EmptyBlob(value) {
      return Some(BadRequest);
    }
    var canonical := NormalizeOptional(tags);
    if canonical.Err? {
      return Some(canonical.error);
    }
    if sel.id.Some? && sel.consumer != "" {
      return Some(BadRequest);
    }
    var updated;
    refused, updated := s.UpdateVariant(now, slug, sel, value, canonical.value, usedBy);
  }
}
