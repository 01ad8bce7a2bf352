// Multi-recipient sealing as the age library offers it, abstracted to what
// the writer and the reader rely on: parse errors by position, refusal of an
// empty recipient list, and opening exactly when some identity matches.
module Sealing {
  import opened Prelude

  newtype byte = i: int | 0 <= i < 256
  type Bytes = seq<byte>

  // A stored value. The server never looks inside.
  datatype Blob =
    | Raw(bytes: Bytes)
    | Sealed(plain: Bytes, recipients: set<nat>)

  predicate EmptyBlob(b: Blob) {
    b.Raw? && b.bytes == []
  }

  // How key strings are read: a recipient string names a key pair, and an
  // identity string holds the private half of one.
  datatype Scheme = Scheme(recipient: string -> Option<nat>, identity: string -> Option<nat>)

  // Where the first key that does not parse stands, or |keys|.
  function FirstBad(parse: string -> Option<nat>, keys: seq<string>): (i: nat)
    ensures i <= |keys|
    ensures forall j :: 0 <= j < i ==> parse(keys[j]).Some?
    ensures i < |keys| ==> parse(keys[i]).None?
  {
    if keys == [] || parse(keys[0]).None? then 0 else 1 + FirstBad(parse, keys[1..])
  }

  // The key pairs the parsable strings among keys name.
  function Parsed(parse: string -> Option<nat>, keys: seq<string>): set<nat> {
    set k | k in keys && parse(k).Some? :: parse(k).value
  }

  function Seal(scheme: Scheme, value: Bytes, keys: seq<string>): Result<Blob> {
    var bad := FirstBad(scheme.recipient, keys);
    if bad < |keys| then Err(BadRecipient(bad))
    else if keys == [] then Err(NoRecipients)
    else Ok(Sealed(value, Parsed(scheme.recipient, keys)))
  }

  function Unseal(scheme: Scheme, sealed: Blob, identities: seq<string>): Result<Bytes> {
    var bad := FirstBad(scheme.identity, identities);
    if bad < |identities| then Err(BadIdentity(bad))
    else if sealed.Sealed? && sealed.recipients * Parsed(scheme.identity, identities) != {} then Ok(sealed.plain)
    else Err(NoMatchingIdentity)
  }

  // Some identity is the private half of some recipient.
  ghost predicate Matches(scheme: Scheme, keys: seq<string>, identities: seq<string>) {
    exists r, i ::
      r in keys && i in identities && scheme.recipient(r).Some? &&
      scheme.recipient(r) == scheme.identity(i)
  }

  // What was sealed to keys opens, to exactly the sealed bytes, for exactly
  // those well-formed identity lists that hold a matching private key.
  lemma SealedOpensIff(scheme: Scheme, value: Bytes, keys: seq<string>, identities: seq<string>)
    requires Seal(scheme, value, keys).Ok?
    requires FirstBad(scheme.identity, identities) == |identities|
    ensures Unseal(scheme, Seal(scheme, value, keys).value, identities) ==
            if Matches(scheme, keys, identities) then Ok(value) else Err(NoMatchingIdentity)
  {
    var common := Parsed(scheme.recipient, keys) * Parsed(scheme.identity, identities);
    if Matches(scheme, keys, identities) {
      var r, i :| r in keys && i in identities && scheme.recipient(r).Some? &&
                  scheme.recipient(r) == scheme.identity(i);
      assert scheme.recipient(r).value in common;
    }
  }

  // Sealing fails exactly at the first recipient that does not parse, or for
  // want of any; opening fails first for an identity that does not parse.
  lemma FailuresAreNamed(scheme: Scheme, value: Bytes, keys: seq<string>, sealed: Blob, identities: seq<string>, i: nat)
    ensures keys == [] ==> Seal(scheme, value, keys) == Err(NoRecipients)
    ensures Unparsed(scheme.recipient, keys, i) ==> Seal(scheme, value, keys) == Err(BadRecipient(i))
    ensures Unparsed(scheme.identity, identities, i) ==> Unseal(scheme, sealed, identities) == Err(BadIdentity(i))
  {
    if i < |keys| && Unparsed(scheme.recipient, keys, i) { assert !(FirstBad(scheme.recipient, keys) < i); }
    if i < |identities| && Unparsed(scheme.identity, identities, i) { assert !(FirstBad(scheme.identity, identities) < i); }
  }

  // The i-th key is the first that does not parse.
  ghost predicate Unparsed(parse: string -> Option<nat>, keys: seq<string>, i: nat) {
    i < |keys| && parse(keys[i]).None? && forall j :: 0 <= j < i ==> parse(keys[j]).Some?
  }
}
