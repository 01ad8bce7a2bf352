// The server as a state machine: every request is one atomic step, so any
// concurrent history of the server is a run of these steps.
module Machine {
  import opened Prelude
  import V = Variants
  import D = Directory
  import T = Tokens
  import A = AuditLog

  // What the server holds, seen abstractly. used collects every random draw
  // the server has made so far.
  datatype State = State(
    book: D.Book,
    keys: T.Keys,
    log: seq<A.Entry>,
    owner: string,
    used: set<string>)

  datatype Op =
    | OnBook(book: D.Op)
    | OnKeys(keys: T.Op)
    | Record(entry: A.Entry, stamped: bool)
    | SetOwner(owner: string)

  // One atomic step at one reading of the clock.
  datatype Step = Step(now: int, op: Op)

  const EMPTY := State(D.Book(map[], map[]), T.Keys(map[], map[]), [], "", {})

  ghost predicate Enabled(s: State, op: Op) {
    match op
    case OnBook(o) => D.Draws(o) !! s.used
    case OnKeys(o) => T.Drawn(o, s.used)
    case _ => true
  }

  ghost predicate Inv(s: State) {
    V.Sound(s.book.names, s.used) && T.Sound(s.keys, s.used) && A.Numbered(s.log)
  }

  // A refused step leaves everything as it was.
  function Next(s: State, step: Step): State
    requires V.NonEmpty(s.book.names)
  {
    match step.op
    case OnBook(o) =>
      var r := D.Try(s.book, step.now, o);
      if r.Ok? then s.(book := r.value, used := s.used + D.Draws(o)) else s
    case OnKeys(o) =>
      var r := T.Try(s.keys, step.now, o);
      if r.Ok? then s.(keys := r.value, used := s.used + T.Draws(o)) else s
    case Record(entry, stamped) => s.(log := A.Recorded(s.log, step.now, entry, stamped))
    case SetOwner(key) => s.(owner := key)
  }

  // Why a step is refused, if it is.
  function Refusal(s: State, step: Step): Option<Failure>
    requires V.NonEmpty(s.book.names)
  {
    match step.op
    case OnBook(o) => D.Outcome(s.book, step.now, o).0
    case OnKeys(o) => T.Outcome(s.keys, step.now, o).0
    case _ => None
  }

  lemma MoreDraws(s: State, more: set<string>)
    requires Inv(s)
    ensures V.Sound(s.book.names, s.used + more) && T.Sound(s.keys, s.used + more)
  {
    forall k, i | k in s.book.names && 0 <= i < |s.book.names[k]|
      ensures V.IdDrawn(s.book.names[k][i], s.used + more)
    {
      assert V.IdDrawn(s.book.names[k][i], s.used);
    }
    assert forall x :: x in s.keys.table ==> T.Built(s.keys.table[x], x, s.used);
  }

  // Every step, whatever its outcome, keeps the invariant.
  lemma StepKeepsInv(s: State, step: Step)
    requires Inv(s) && Enabled(s, step.op)
    ensures Inv(Next(s, step))
  {
    match step.op
    case OnBook(o) =>
      D.OpStaysSound(s.book, s.used, step.now, o);
      MoreDraws(s, D.Draws(o));
    case OnKeys(o) =>
      T.OpStaysSound(s.keys, s.used, step.now, o);
      MoreDraws(s, T.Draws(o));
    case Record(_, _) =>
    case SetOwner(_) =>
  }

  // A step changes one part of the server, as that part's own request does,
  // and leaves the others as they are.
  lemma StepTouchesOnePart(s: State, step: Step)
    requires Inv(s)
    ensures var next := Next(s, step);
            && (step.op.OnBook? ==> next.book == D.Outcome(s.book, step.now, step.op.book).1)
            && (step.op.OnKeys? ==> next.keys == T.Outcome(s.keys, step.now, step.op.keys).1)
            && (step.op.Record? ==> next.log == A.Recorded(s.log, step.now, step.op.entry, step.op.stamped))
            && (step.op.SetOwner? ==> next.owner == step.op.owner)
            && (!step.op.OnBook? ==> next.book == s.book) && (!step.op.OnKeys? ==> next.keys == s.keys)
            && (!step.op.Record? ==> next.log == s.log) && (!step.op.SetOwner? ==> next.owner == s.owner)
            && (Refusal(s, step).Some? ==> next == s)
  {
  }
}
