// What holds over whole runs of the server, whatever requests interleave.
module Runs {
  import opened Prelude
  import opened Machine
  import V = Variants
  import D = Directory
  import T = Tokens

  // Steps that can follow one another: the clock never goes back from t, and
  // every random draw is new.
  ghost predicate IsRun(s: State, t: int, steps: seq<Step>)
    requires Inv(s)
    decreases |steps|
  {
    steps == [] ||
    (t <= steps[0].now && Enabled(s, steps[0].op) &&
     (StepKeepsInv(s, steps[0]); IsRun(Next(s, steps[0]), steps[0].now, steps[1..])))
  }

  // The state a run ends in.
  ghost function End(s: State, t: int, steps: seq<Step>): (r: State)
    requires Inv(s) && IsRun(s, t, steps)
    ensures Inv(r)
    decreases |steps|
  {
    if steps == [] then s
    else
      StepKeepsInv(s, steps[0]);
      End(Next(s, steps[0]), steps[0].now, steps[1..])
  }

  lemma StepThenRun(s: State, t: int, step: Step, rest: seq<Step>)
    requires Inv(s) && t <= step.now && Enabled(s, step.op)
    requires Inv(Next(s, step)) && IsRun(Next(s, step), step.now, rest)
    ensures IsRun(s, t, [step] + rest)
    ensures End(s, t, [step] + rest) == End(Next(s, step), step.now, rest)
  {
    assert ([step] + rest)[1..] == rest;
  }

  // The last reading of the clock.
  function EndTime(t: int, steps: seq<Step>): int {
    if steps == [] then t else steps[|steps| - 1].now
  }

  // ------------------------------------------------------------ dead tokens

  ghost predicate Authenticates(s: State, value: string, now: int) {
    T.Authenticates(s.keys, value, now)
  }

  // A value built from a draw already made that no longer authenticates.
  ghost predicate DeadValue(s: State, value: string, now: int) {
    T.Suffix(value) in s.used && !Authenticates(s, value, now)
  }

  // An id already drawn that holds no usable token.
  ghost predicate DeadId(s: State, id: string, now: int) {
    id in s.used && (id in s.keys.table ==> !T.Usable(s.keys.table[id], now))
  }

  lemma StepKeepsDead(s: State, step: Step, value: string, id: string)
    requires Inv(s) && Enabled(s, step.op)
    ensures DeadValue(s, value, step.now) ==> DeadValue(Next(s, step), value, step.now)
    ensures DeadId(s, id, step.now) ==> DeadId(Next(s, step), id, step.now)
  {
    if step.op.OnKeys? {
      if DeadId(s, id, step.now) {
        T.OpKeepsDeadId(s.keys, s.used, step.now, step.op.keys, id);
      }
      if DeadValue(s, value, step.now) {
        T.OpKeepsDeadValue(s.keys, s.used, step.now, step.op.keys, value);
      }
    }
  }

  // Once a drawn value or a drawn id stops authenticating, nothing that
  // happens later makes it authenticate again.
  lemma {:induction false} DeadStaysDead(s: State, t: int, steps: seq<Step>, value: string, id: string, now: int)
    requires Inv(s) && IsRun(s, t, steps)
    requires EndTime(t, steps) <= now
    ensures DeadValue(s, value, t) ==> !Authenticates(End(s, t, steps), value, now)
    ensures DeadId(s, id, t) ==>
              id !in End(s, t, steps).keys.table || !T.Usable(End(s, t, steps).keys.table[id], now)
    decreases |steps|
  {
    if steps != [] {
      StepKeepsInv(s, steps[0]);
      StepKeepsDead(s, steps[0], value, id);
      assert DeadValue(s, value, t) ==> DeadValue(s, value, steps[0].now);
      DeadStaysDead(Next(s, steps[0]), steps[0].now, steps[1..], value, id, now);
    }
  }

  // What kills a token: a revocation or a purge kills the id and its value.
  lemma RetiredIsDead(s: State, now: int, id: string)
    requires Inv(s) && id in s.keys.table
    ensures var r := Next(s, Step(now, OnKeys(T.RevokeToken(id))));
            DeadId(r, id, now) && DeadValue(r, s.keys.table[id].value, now)
    ensures T.Purge(s.keys.table, now, id).Ok? ==>
              var r := Next(s, Step(now, OnKeys(T.PurgeToken(id))));
              DeadId(r, id, now) && DeadValue(r, s.keys.table[id].value, now)
  {
    assert T.Built(s.keys.table[id], id, s.used);
    T.RevocationKills(s.keys, s.used, now, id);
    if T.Purge(s.keys.table, now, id).Ok? {
      T.PurgeKills(s.keys, s.used, now, id);
    }
  }

  // A rotation kills the old value and brings the new one to life; running
  // past its expiry kills a token unaided.
  lemma RotatedIsDead(s: State, now: int, id: string, ttl: int, draw: string)
    requires Inv(s) && id in s.keys.table && T.Drawn(T.RotateToken(id, ttl, draw), s.used)
    ensures T.Rotate(s.keys.table, now, id, ttl, draw).Ok? ==>
              var r := Next(s, Step(now, OnKeys(T.RotateToken(id, ttl, draw))));
              && DeadValue(r, s.keys.table[id].value, now)
              && (ttl >= 0 ==> Authenticates(r, T.ValueOf(s.keys.table[id].consumer, draw), now))
    ensures now > s.keys.table[id].expiresAt ==>
              DeadId(s, id, now) && DeadValue(s, s.keys.table[id].value, now)
  {
    assert T.Built(s.keys.table[id], id, s.used);
    var op := T.RotateToken(id, ttl, draw);
    if T.Rotate(s.keys.table, now, id, ttl, draw).Ok? {
      T.RotationKills(s.keys, s.used, now, op);
      T.NewValueReads(s.keys, s.used, now, op, now);
    }
    T.ValueHasOneHolder(s.keys, s.used, id);
    if now > s.keys.table[id].expiresAt {
      T.NobodyHolds(s.keys, s.keys.table[id].value, now);
    }
  }

  // ------------------------------------------------------------- live tokens

  predicate Retires(op: Op, id: string) {
    op.OnKeys? && T.Retires(op.keys, id)
  }

  lemma StepKeepsToken(s: State, step: Step, id: string)
    requires Inv(s) && Enabled(s, step.op) && id in s.keys.table && !Retires(step.op, id)
    ensures var t := Next(s, step).keys.table; id in t && t[id] == s.keys.table[id]
  {
    if step.op.OnKeys? {
      assert T.Built(s.keys.table[id], id, s.used);
      T.OpKeepsToken(s.keys, s.used, step.now, step.op.keys, id);
    }
  }

  // A token that nothing rotates, revokes or purges reads as its consumer up
  // to and including the instant of its expiry.
  lemma {:induction false} LiveStaysLive(s: State, t: int, steps: seq<Step>, id: string, now: int)
    requires Inv(s) && IsRun(s, t, steps)
    requires id in s.keys.table && T.Usable(s.keys.table[id], now)
    requires forall i :: 0 <= i < |steps| ==> !Retires(steps[i].op, id)
    ensures T.Bearer(End(s, t, steps).keys.table, s.keys.table[id].value, now) == Some(s.keys.table[id].consumer)
    decreases |steps|
  {
    if steps == [] {
      OnlyBearer(s, id, now);
    } else {
      assert !Retires(steps[0].op, id);
      StepKeepsInv(s, steps[0]);
      StepKeepsToken(s, steps[0], id);
      LiveStaysLive(Next(s, steps[0]), steps[0].now, steps[1..], id, now);
    }
  }

  lemma OnlyBearer(s: State, id: string, now: int)
    requires Inv(s) && id in s.keys.table && T.Usable(s.keys.table[id], now)
    ensures T.Bearer(s.keys.table, s.keys.table[id].value, now) == Some(s.keys.table[id].consumer)
  {
    var t := s.keys.table;
    var other :| other in t && t[other].value == t[id].value && T.Usable(t[other], now) &&
                 T.Bearer(t, t[id].value, now) == Some(t[other].consumer);
    T.ValueHasOneHolder(s.keys, s.used, id);
  }

  // --------------------------------------------------- runs without seeding

  predicate Seeds(op: Op) {
    op.OnBook? && op.book.AddVariant?
  }

  // One variant a name, and every named consumer in the directory.
  ghost predicate Plain(s: State) {
    V.OnlyPrimaries(s.book.names) && D.Closed(s.book)
  }

  lemma ObjectOpKeepsPlain(b: D.Book, now: int, op: D.Op)
    requires V.OnlyPrimaries(b.names) && D.Closed(b)
    requires op.Create? || op.Update? || op.Patch? || op.Delete?
    ensures var r := D.Try(b, now, op); r.Ok? ==> V.OnlyPrimaries(r.value.names) && D.Closed(r.value)
  {
    var r := D.Try(b, now, op);
    if r.Ok? {
      forall k | k in r.value.names
        ensures |r.value.names[k]| == 1 && Elements(r.value.names[k][0].usedBy) <= r.value.entries.Keys
      {
        if k in b.names { assert Elements(b.names[k][0].usedBy) <= b.entries.Keys; }
        if op.Patch? && op.name in b.names {
          assert Elements(b.names[op.name][0].usedBy) <= b.entries.Keys;
        }
      }
    }
  }

  lemma StepKeepsPlain(s: State, step: Step)
    requires Inv(s) && Plain(s) && Enabled(s, step.op) && !Seeds(step.op)
    ensures Plain(Next(s, step))
  {
    if step.op.OnBook? {
      match step.op.book
      case AddVariant(_, _, _, _) =>
      case AddConsumer(_) =>
      case UpdateConsumer(name, newName, key) => D.RenameKeepsClosed(s.book, name, newName, key);
      case DeleteConsumer(name) => D.RemovalKeepsClosed(s.book, name);
      case _ => ObjectOpKeepsPlain(s.book, step.now, step.op.book);
    }
  }

  // A run that never seeds a variant keeps the overflow empty and the
  // directory closed under used_by, renames and removals included.
  lemma {:induction false} PlainRuns(s: State, t: int, steps: seq<Step>)
    requires Inv(s) && Plain(s) && IsRun(s, t, steps)
    requires forall i :: 0 <= i < |steps| ==> !Seeds(steps[i].op)
    ensures Plain(End(s, t, steps))
    decreases |steps|
  {
    if steps != [] {
      StepKeepsInv(s, steps[0]);
      StepKeepsPlain(s, steps[0]);
      PlainRuns(Next(s, steps[0]), steps[0].now, steps[1..]);
    }
  }

  // So do the runs of a new server.
  lemma NewServerIsPlain()
    ensures Inv(EMPTY) && Plain(EMPTY)
  {
  }

  // ------------------------------------------------------------- growth only

  predicate Forgets(op: Op) {
    op.OnBook? && (op.book.DeleteConsumer? || (op.book.UpdateConsumer? && op.book.newName.Some?))
  }

  lemma StepGrows(s: State, step: Step)
    requires Inv(s)
    ensures s.log <= Next(s, step).log
    ensures !Forgets(step.op) ==> s.book.entries.Keys <= Next(s, step).book.entries.Keys
  {
  }

  // No request shortens or rewrites the log; none but a rename or a removal
  // takes a name out of the directory.
  lemma {:induction false} RunGrows(s: State, t: int, steps: seq<Step>)
    requires Inv(s) && IsRun(s, t, steps)
    ensures s.log <= End(s, t, steps).log
    ensures (forall i :: 0 <= i < |steps| ==> !Forgets(steps[i].op)) ==>
              s.book.entries.Keys <= End(s, t, steps).book.entries.Keys
    decreases |steps|
  {
    if steps != [] {
      StepKeepsInv(s, steps[0]);
      StepGrows(s, steps[0]);
      RunGrows(Next(s, steps[0]), steps[0].now, steps[1..]);
      if forall i :: 0 <= i < |steps| ==> !Forgets(steps[i].op) {
        assert !Forgets(steps[0].op);
      }
    }
  }

  // Requests that take this name out of the directory.
  predicate ForgetsName(op: Op, name: string) {
    Forgets(op) && op.book.name == name
  }

  lemma StepKeepsName(s: State, step: Step, name: string)
    requires Inv(s) && name in s.book.entries && !ForgetsName(step.op, name)
    ensures name in Next(s, step).book.entries
  {
  }

  // No other request does, nor any run of others.
  lemma {:induction false} RunKeepsName(s: State, t: int, steps: seq<Step>, name: string)
    requires Inv(s) && IsRun(s, t, steps) && name in s.book.entries
    requires forall i :: 0 <= i < |steps| ==> !ForgetsName(steps[i].op, name)
    ensures name in End(s, t, steps).book.entries
    decreases |steps|
  {
    if steps != [] {
      assert !ForgetsName(steps[0].op, name);
      StepKeepsInv(s, steps[0]);
      StepKeepsName(s, steps[0], name);
      RunKeepsName(Next(s, steps[0]), steps[0].now, steps[1..], name);
    }
  }

  // -------------------------------------------------------------- histories

  // The server got from one state to the other by requests of a given kind.
  ghost predicate Leads(a: State, b: State, allowed: Op -> bool) {
    Inv(a) && exists t: int, steps: seq<Step> ::
      IsRun(a, t, steps) && End(a, t, steps) == b && forall i :: 0 <= i < |steps| ==> allowed(steps[i].op)
  }

  // The states a client's successive requests meet. Whatever happens between
  // two requests is some run; after the last entry nothing happens any more.
  ghost predicate IsHistory(history: seq<State>, allowed: Op -> bool) {
    history != [] && Inv(history[0]) &&
    forall i :: 0 < i < |history| ==> Leads(history[i - 1], history[i], allowed)
  }

  // What the k-th request meets.
  function Met(history: seq<State>, k: nat): State
    requires history != []
  {
    history[Min(k, |history| - 1)]
  }

  const ANYTHING: Op -> bool := op => true
  const NOTHING_FORGOTTEN: Op -> bool := op => !Forgets(op)

  lemma {:induction false} HistoryGrows(history: seq<State>, allowed: Op -> bool, i: nat, j: nat)
    requires IsHistory(history, allowed)
    requires i <= j
    ensures Inv(Met(history, j))
    ensures Met(history, i).log <= Met(history, j).log
    ensures (forall op :: allowed(op) ==> !Forgets(op)) ==>
              Met(history, i).book.entries.Keys <= Met(history, j).book.entries.Keys
    decreases j
  {
    if i < j {
      HistoryGrows(history, allowed, i, j - 1);
      if j < |history| {
        var a, b := history[j - 1], history[j];
        assert Leads(a, b, allowed);
        var t: int, steps: seq<Step> :| IsRun(a, t, steps) && End(a, t, steps) == b && forall k :: 0 <= k < |steps| ==> allowed(steps[k].op);
        RunGrows(a, t, steps);
      }
    } else if 0 < j < |history| {
      HistoryGrows(history, allowed, j - 1, j - 1);
      assert Leads(history[j - 1], history[j], allowed);
    } else if j >= |history| {
      HistoryGrows(history, allowed, |history| - 1, |history| - 1);
    }
  }

  // Requests that take no name up to x out of the directory.
  function KeepsUpTo(x: string): Op -> bool {
    op => Forgets(op) ==> !StrLe(op.book.name, x)
  }

  lemma {:induction false} HistoryKeepsName(history: seq<State>, allowed: Op -> bool, name: string, i: nat, j: nat)
    requires IsHistory(history, allowed) && i <= j
    requires forall op :: allowed(op) ==> !ForgetsName(op, name)
    requires name in Met(history, i).book.entries
    ensures name in Met(history, j).book.entries
    decreases j
  {
    if i < j {
      HistoryKeepsName(history, allowed, name, i, j - 1);
      if j < |history| {
        var a, b := history[j - 1], history[j];
        assert Leads(a, b, allowed);
        var t: int, steps: seq<Step> :| IsRun(a, t, steps) && End(a, t, steps) == b && forall k :: 0 <= k < |steps| ==> allowed(steps[k].op);
        RunKeepsName(a, t, steps, name);
      }
    }
  }
}
