// The live store refines the state machine: performing any request leaves the
// store exactly where the machine's step leads, and its maps consistent.
module Refinement {
  import opened Prelude
  import opened Server
  import D = Directory
  import T = Tokens
  import A = AuditLog
  import M = Machine
  import R = Runs

  // The store together with the draws made so far, as a machine state.
  ghost function StateView(s: Store, used: set<string>): M.State
    reads s, s.consumerTokens.Values
  {
    M.State(s.BookView(), s.KeysView(), s.auditLog, s.ownerPublicKey, used)
  }

  ghost predicate Consistent(s: Store)
    reads s, s.consumerTokens.Values
  {
    s.Shape() && s.TokenShape() && s.LogShape()
  }

  method PerformOnBook(s: Store, now: int, op: D.Op) returns (refused: Option<Failure>)
    requires s.Shape()
    modifies s`objects, s`extra, s`consumers
    ensures s.Shape()
    ensures (refused, s.BookView()) == D.Outcome(old(s.BookView()), now, op)
  {
    match op
    case Create(slug, value, usedBy, description, tags) =>
      refused := s.CreateObject(now, slug, value, usedBy, description, tags);
    case AddVariant(name, value, usedBy, draw) =>
      var id;
      refused, id := s.AddVariant(now, name, value, usedBy, draw);
    case Update(name, sel, value, tags, usedBy) =>
      var updated;
      refused, updated := s.UpdateVariant(now, name, sel, value, tags, usedBy);
    case Patch(name, sel, description, slug, tags) =>
      var patched;
      refused, patched := s.PatchVariant(now, name, sel, description, slug, tags);
    case Delete(name, sel) => refused := s.DeleteVariant(now, name, sel);
    case AddConsumer(name) => refused := s.AddConsumer(now, name);
    case UpdateConsumer(name, newName, key) =>
      var entry;
      refused, entry := s.UpdateConsumer(now, name, newName, key);
    case DeleteConsumer(name) => refused := s.DeleteConsumer(now, name);
  }

  method PerformOnKeys(s: Store, now: int, op: T.Op) returns (refused: Option<Failure>)
    requires s.Unshared()
    modifies s`tokens, s`consumerTokens, s`consumerTokenValues, s.consumerTokens.Values
    ensures s.Unshared()
    ensures fresh(s.consumerTokens.Values - old(s.consumerTokens.Values))
    ensures (refused, s.KeysView()) == T.Outcome(old(s.KeysView()), now, op)
    ensures s.consumerTokenValues == T.IndexAfter(old(s.TableView()), old(s.consumerTokenValues), now, op)
  {
    refused := None;
    match op
    case IssueToken(consumer, description, ttl, id, draw) =>
      var _ := s.IssueConsumerToken(now, consumer, description, ttl, id, draw);
    case RotateToken(id, ttl, draw) => refused := s.RotateConsumerToken(now, id, ttl, draw);
    case RevokeToken(id) => s.RevokeConsumerToken(now, id);
    case PurgeToken(id) => refused := s.PurgeConsumerToken(now, id);
    case CreateWriteToken(name, ttl, draw) => var _ := s.CreateWriteToken(now, name, ttl, draw);
  }

  // What the requests on one side leave alone on the other.
  twostate predicate KeysUntouched(s: Store)
    reads s, s.consumerTokens.Values
  {
    s.TokenShape() && s.KeysView() == old(s.KeysView()) && s.consumerTokens == old(s.consumerTokens)
  }

  twostate predicate BookUntouched(s: Store)
    reads s
  {
    s.Shape() && s.BookView() == old(s.BookView())
  }

  twostate predicate RestUntouched(s: Store)
    reads s
  {
    s.LogShape() && s.auditLog == old(s.auditLog) && s.ownerPublicKey == old(s.ownerPublicKey)
  }

  method BookStep(s: Store, now: int, op: D.Op) returns (refused: Option<Failure>)
    requires Consistent(s)
    modifies s`objects, s`extra, s`consumers
    ensures s.Shape() && KeysUntouched(s) && RestUntouched(s)
    ensures (refused, s.BookView()) == D.Outcome(old(s.BookView()), now, op)
  {
    refused := PerformOnBook(s, now, op);
  }

  method KeysStep(s: Store, now: int, op: T.Op, ghost used: set<string>) returns (refused: Option<Failure>)
    requires Consistent(s) && T.Sound(s.KeysView(), used) && T.Drawn(op, used)
    modifies s`tokens, s`consumerTokens, s`consumerTokenValues, s.consumerTokens.Values
    ensures s.TokenShape() && BookUntouched(s) && RestUntouched(s)
    ensures fresh(s.consumerTokens.Values - old(s.consumerTokens.Values))
    ensures (refused, s.KeysView()) == T.Outcome(old(s.KeysView()), now, op)
  {
    T.OpKeepsInverse(s.KeysView(), s.consumerTokenValues, used, now, op);
    refused := PerformOnKeys(s, now, op);
  }

  method RecordStep(s: Store, now: int, entry: A.Entry, stamped: bool)
    requires Consistent(s)
    modifies s`auditLog, s`auditSeq
    ensures BookUntouched(s) && KeysUntouched(s) && s.LogShape()
    ensures s.auditLog == A.Recorded(old(s.auditLog), now, entry, stamped)
  {
    var _ := s.RecordAuditEntry(now, entry, stamped);
  }

  method SetOwnerStep(s: Store, key: string)
    requires Consistent(s)
    modifies s`ownerPublicKey
    ensures BookUntouched(s) && KeysUntouched(s) && s.LogShape()
    ensures s.auditLog == old(s.auditLog) && s.ownerPublicKey == key
  {
    s.SetOwnerPublicKey(key);
  }

  // One step of the machine, on the store.
  method Perform(s: Store, step: M.Step, ghost used: set<string>) returns (refused: Option<Failure>)
    requires Consistent(s) && T.Sound(s.KeysView(), used) && M.Enabled(StateView(s, used), step.op)
    modifies s, s.consumerTokens.Values
    ensures Consistent(s)
    ensures fresh(s.consumerTokens.Values - old(s.consumerTokens.Values))
    ensures var next := M.Next(old(StateView(s, used)), step); StateView(s, next.used) == next
    ensures refused == M.Refusal(old(StateView(s, used)), step)
  {
    refused := None;
    match step.op
    case OnBook(op) => refused := BookStep(s, step.now, op);
    case OnKeys(op) => refused := KeysStep(s, step.now, op, used);
    case Record(entry, stamped) => RecordStep(s, step.now, entry, stamped);
    case SetOwner(key) => SetOwnerStep(s, key);
  }

  // A whole run of the machine, on the store: it ends in the state the run
  // ends in, with its two token maps still inverse.
  method PerformAll(s: Store, t: int, steps: seq<M.Step>, ghost used: set<string>)
    requires Consistent(s) && M.Inv(StateView(s, used)) && R.IsRun(StateView(s, used), t, steps)
    modifies s, s.consumerTokens.Values
    ensures Consistent(s)
    ensures fresh(s.consumerTokens.Values - old(s.consumerTokens.Values))
    ensures var end := R.End(old(StateView(s, used)), t, steps); StateView(s, end.used) == end
    decreases |steps|
  {
    if steps != [] {
      ghost var next := M.Next(StateView(s, used), steps[0]);
      M.StepKeepsInv(StateView(s, used), steps[0]);
      var _ := Perform(s, steps[0], used);
      PerformAll(s, steps[0].now, steps[1..], next.used);
    }
  }
}
