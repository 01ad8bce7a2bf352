// Consumer read tokens and write tokens: issue, rotate, revoke, purge, who a
// presented value authenticates, and the two views of a token's state.
module Tokens {
  import opened Prelude

  datatype Token = Token(
    id: string,
    consumer: string,
    description: string,
    createdAt: int,
    expiresAt: int,
    revoked: bool,
    value: string)

  // Every issued token under its id.
  type Table = map<string, Token>

  // From a raw value to the id that issued it.
  type Index = map<string, string>

  // A random suffix is 16 random bytes in hexadecimal.
  const DRAW_LENGTH := 32

  // What stands in for a random suffix when the entropy source fails.
  const FALLBACK := "fallback"

  function ValueOf(consumer: string, draw: string): string {
    "consumer-" + consumer + "-" + draw
  }

  function WriteValueOf(name: string, draw: string): string {
    name + "-" + draw
  }

  // The random part of a built value.
  function Suffix(value: string): string {
    if |value| < DRAW_LENGTH then value else value[|value| - DRAW_LENGTH..]
  }

  function Issued(now: int, consumer: string, description: string, ttl: int, id: string, draw: string): Token {
    Token(id, consumer, description, now, now + ttl, false, ValueOf(consumer, draw))
  }

  function Issue(t: Table, now: int, consumer: string, description: string, ttl: int, id: string, draw: string): Table {
    t[id := Issued(now, consumer, description, ttl, id, draw)]
  }

  predicate Usable(rec: Token, now: int) {
    !rec.revoked && now <= rec.expiresAt
  }

  function Rotated(rec: Token, now: int, ttl: int, draw: string): Token {
    rec.(value := ValueOf(rec.consumer, draw), expiresAt := now + ttl)
  }

  function Rotate(t: Table, now: int, id: string, ttl: int, draw: string): Result<Table> {
    if id !in t || !Usable(t[id], now) then Err(TokenNotFound)
    else Ok(t[id := Rotated(t[id], now, ttl, draw)])
  }

  function Revoke(t: Table, id: string): Table {
    if id in t then t[id := t[id].(revoked := true)] else t
  }

  function Purge(t: Table, now: int, id: string): Result<Table> {
    if id !in t then Err(TokenNotFound)
    else if !t[id].revoked && now < t[id].expiresAt then Err(TokenActive)
    else Ok(t - {id})
  }

  // The consumer a presented value reads as, found in the table itself.
  ghost function Bearer(t: Table, value: string, now: int): (r: Option<string>)
    ensures r.Some? <==> exists id :: id in t && t[id].value == value && Usable(t[id], now)
  {
    if id :| id in t && t[id].value == value && Usable(t[id], now) then Some(t[id].consumer) else None
  }

  predicate ValidWriteToken(w: map<string, int>, value: string, now: int) {
    value in w && now < w[value]
  }

  // --------------------------------------------------- the key ring's requests

  // Every credential the server knows.
  datatype Keys = Keys(table: Table, writeTokens: map<string, int>)

  datatype Op =
    | IssueToken(consumer: string, description: string, ttl: int, idDraw: string, draw: string)
    | RotateToken(id: string, ttl: int, draw: string)
    | RevokeToken(id: string)
    | PurgeToken(id: string)
    | CreateWriteToken(name: string, ttl: int, draw: string)

  function Draws(op: Op): set<string> {
    match op
    case IssueToken(_, _, _, id, draw) => {id, draw}
    case RotateToken(_, _, draw) => {draw}
    case CreateWriteToken(_, _, draw) => {draw}
    case _ => {}
  }

  // The entropy source works: draws are new, of full length and distinct.
  ghost predicate Drawn(op: Op, used: set<string>) {
    && Draws(op) !! used
    && (op.IssueToken? ==> op.idDraw != op.draw)
    && (op.IssueToken? || op.RotateToken? || op.CreateWriteToken? ==> |op.draw| == DRAW_LENGTH)
  }

  function WithTable(k: Keys, r: Result<Table>): Result<Keys> {
    match r
    case Err(e) => Err(e)
    case Ok(t) => Ok(k.(table := t))
  }

  function Try(k: Keys, now: int, op: Op): Result<Keys> {
    match op
    case IssueToken(consumer, description, ttl, id, draw) =>
      Ok(k.(table := Issue(k.table, now, consumer, description, ttl, id, draw)))
    case RotateToken(id, ttl, draw) => WithTable(k, Rotate(k.table, now, id, ttl, draw))
    case RevokeToken(id) => Ok(k.(table := Revoke(k.table, id)))
    case PurgeToken(id) => WithTable(k, Purge(k.table, now, id))
    case CreateWriteToken(name, ttl, draw) =>
      Ok(k.(writeTokens := k.writeTokens[WriteValueOf(name, draw) := now + ttl]))
  }

  function Outcome(k: Keys, now: int, op: Op): (Option<Failure>, Keys) {
    match Try(k, now, op)
    case Ok(k') => (None, k')
    case Err(e) => (Some(e), k)
  }

  // ------------------------------------------------------ built values

  lemma SuffixOfBuilt(consumer: string, draw: string)
    requires |draw| == DRAW_LENGTH
    ensures Suffix(ValueOf(consumer, draw)) == draw
    ensures Suffix(WriteValueOf(consumer, draw)) == draw
  {
  }

  // Values built from equally long draws are equal only if both parts are.
  lemma ValuesInjective(c1: string, d1: string, c2: string, d2: string)
    requires |d1| == |d2|
    requires ValueOf(c1, d1) == ValueOf(c2, d2)
    ensures c1 == c2 && d1 == d2
  {
    var v := ValueOf(c1, d1);
    var p := |"consumer-"|;
    assert |c1| == |c2|;
    assert v[p..p + |c1|] == c1 && v[p..p + |c1|] == c2;
    assert v[|v| - |d1|..] == d1 && v[|v| - |d1|..] == d2;
  }

  // -------------------------------------------------- what every step keeps

  ghost predicate Built(rec: Token, id: string, used: set<string>) {
    rec.id == id && id in used && Suffix(rec.value) in used &&
    rec.value == ValueOf(rec.consumer, Suffix(rec.value))
  }

  // Records sit under their own drawn id, values are built from draws, and
  // no draw stands behind two values.
  ghost predicate Sound(k: Keys, used: set<string>) {
    var t, w := k.table, k.writeTokens;
    && (forall id :: id in t ==> Built(t[id], id, used))
    && (forall a, b :: a in t && b in t && Suffix(t[a].value) == Suffix(t[b].value) ==> a == b)
    && (forall v :: v in w ==> Suffix(v) in used)
    && (forall id, v :: id in t && v in w ==> Suffix(t[id].value) != Suffix(v))
  }

  // More draws change nothing.
  lemma MoreDrawsStaySound(k: Keys, used: set<string>, more: set<string>)
    requires Sound(k, used)
    ensures Sound(k, used + more)
  {
    forall x | x in k.table ensures Built(k.table[x], x, used + more) {
      assert Built(k.table[x], x, used);
    }
  }

  // Writing one record whose value comes from a new draw.
  lemma PutStaysSound(k: Keys, used: set<string>, more: set<string>, id: string, rec: Token)
    requires Sound(k, used) && Built(rec, id, used + more) && Suffix(rec.value) !in used
    ensures Sound(k.(table := k.table[id := rec]), used + more)
  {
    MoreDrawsStaySound(k, used, more);
    forall x | x in k.table ensures Suffix(k.table[x].value) != Suffix(rec.value) {
      assert Built(k.table[x], x, used);
    }
  }

  lemma IssueStaysSound(k: Keys, used: set<string>, now: int, op: Op)
    requires Sound(k, used) && Drawn(op, used) && op.IssueToken?
    ensures Sound(Try(k, now, op).value, used + Draws(op))
  {
    SuffixOfBuilt(op.consumer, op.draw);
    var rec := Issued(now, op.consumer, op.description, op.ttl, op.idDraw, op.draw);
    PutStaysSound(k, used, Draws(op), op.idDraw, rec);
  }

  lemma RotateStaysSound(k: Keys, used: set<string>, now: int, op: Op)
    requires Sound(k, used) && Drawn(op, used) && op.RotateToken?
    ensures var r := Try(k, now, op); r.Ok? ==> Sound(r.value, used + Draws(op))
  {
    if op.id in k.table && Usable(k.table[op.id], now) {
      assert Built(k.table[op.id], op.id, used);
      SuffixOfBuilt(k.table[op.id].consumer, op.draw);
      PutStaysSound(k, used, Draws(op), op.id, Rotated(k.table[op.id], now, op.ttl, op.draw));
    }
  }

  // Writing one record without touching its value.
  lemma RewriteStaysSound(k: Keys, used: set<string>, id: string, rec: Token)
    requires Sound(k, used) && id in k.table
    requires rec.id == id && rec.value == k.table[id].value && rec.consumer == k.table[id].consumer
    ensures Sound(k.(table := k.table[id := rec]), used)
  {
    var t := k.table[id := rec];
    assert Built(k.table[id], id, used);
    forall x | x in t ensures Built(t[x], x, used) {
      assert Built(k.table[x], x, used);
    }
    assert forall x :: x in t ==> t[x].value == k.table[x].value;
  }

  lemma RevokeStaysSound(k: Keys, used: set<string>, id: string)
    requires Sound(k, used)
    ensures Sound(k.(table := Revoke(k.table, id)), used)
  {
    if id in k.table {
      assert Built(k.table[id], id, used);
      RewriteStaysSound(k, used, id, k.table[id].(revoked := true));
    }
  }

  lemma PurgeStaysSound(k: Keys, used: set<string>, id: string)
    requires Sound(k, used)
    ensures Sound(k.(table := k.table - {id}), used)
  {
    forall x | x in k.table - {id} ensures Built((k.table - {id})[x], x, used) {
      assert Built(k.table[x], x, used);
    }
  }

  lemma WriteTokenStaysSound(k: Keys, used: set<string>, now: int, op: Op)
    requires Sound(k, used) && Drawn(op, used) && op.CreateWriteToken?
    ensures Sound(Try(k, now, op).value, used + Draws(op))
  {
    SuffixOfBuilt(op.name, op.draw);
    MoreDrawsStaySound(k, used, Draws(op));
    forall x | x in k.table ensures Suffix(k.table[x].value) != op.draw {
      assert Built(k.table[x], x, used);
    }
  }

  // Every request keeps that, whatever its outcome.
  lemma OpStaysSound(k: Keys, used: set<string>, now: int, op: Op)
    requires Sound(k, used) && Drawn(op, used)
    ensures var r := Try(k, now, op); r.Ok? ==> Sound(r.value, used + Draws(op))
  {
    match op
    case IssueToken(_, _, _, _, _) => IssueStaysSound(k, used, now, op);
    case RotateToken(_, _, _) => RotateStaysSound(k, used, now, op);
    case CreateWriteToken(_, _, _) => WriteTokenStaysSound(k, used, now, op);
    case RevokeToken(id) =>
      assert used + Draws(op) == used;
      RevokeStaysSound(k, used, id);
    case PurgeToken(id) =>
      assert used + Draws(op) == used;
      PurgeStaysSound(k, used, id);
  }

  // A value in the table is held by one token and is no write token.
  lemma ValueHasOneHolder(k: Keys, used: set<string>, id: string)
    requires Sound(k, used) && id in k.table
    ensures forall x :: x in k.table && k.table[x].value == k.table[id].value ==> x == id
    ensures k.table[id].value !in k.writeTokens
  {
    forall x | x in k.table && k.table[x].value == k.table[id].value ensures x == id {
      assert Suffix(k.table[x].value) == Suffix(k.table[id].value);
    }
  }

  // -------------------------------------------------------------- dead tokens

  // The value opens anything at all: as a write token or as a read token.
  ghost predicate Authenticates(k: Keys, value: string, now: int) {
    ValidWriteToken(k.writeTokens, value, now) || Bearer(k.table, value, now).Some?
  }

  // No request hands an old value to another token, nor makes its holder
  // usable again.
  lemma NoNewHolder(k: Keys, used: set<string>, now: int, op: Op, value: string, id: string)
    requires Drawn(op, used) && Suffix(value) in used
    ensures var t, t' := k.table, Outcome(k, now, op).1.table;
            id in t' && t'[id].value == value ==>
              id in t && t[id].value == value && (Usable(t'[id], now) ==> Usable(t[id], now))
  {
    match op
    case IssueToken(consumer, _, _, _, draw) => SuffixOfBuilt(consumer, draw);
    case RotateToken(x, _, draw) => if x in k.table { SuffixOfBuilt(k.table[x].consumer, draw); }
    case RevokeToken(_) =>
    case PurgeToken(_) =>
    case CreateWriteToken(_, _, _) =>
  }

  lemma OpKeepsDeadValue(k: Keys, used: set<string>, now: int, op: Op, value: string)
    requires Drawn(op, used)
    requires Suffix(value) in used && !Authenticates(k, value, now)
    ensures !Authenticates(Outcome(k, now, op).1, value, now)
  {
    if op.CreateWriteToken? { SuffixOfBuilt(op.name, op.draw); }
    var t' := Outcome(k, now, op).1.table;
    forall x | x in t' && t'[x].value == value ensures !Usable(t'[x], now) {
      NoNewHolder(k, used, now, op, value, x);
    }
  }

  lemma OpKeepsDeadId(k: Keys, used: set<string>, now: int, op: Op, id: string)
    requires Drawn(op, used)
    requires id in used && (id in k.table ==> !Usable(k.table[id], now))
    ensures var t := Outcome(k, now, op).1.table; id in t ==> !Usable(t[id], now)
  {
  }

  // No usable token holds the value and it is no write token.
  lemma NobodyHolds(k: Keys, value: string, now: int)
    requires value !in k.writeTokens
    requires forall x :: x in k.table && k.table[x].value == value ==> !Usable(k.table[x], now)
    ensures !Authenticates(k, value, now)
  {
  }

  lemma OneHolderRevoked(k: Keys, now: int, id: string)
    requires id in k.table && k.table[id].value !in k.writeTokens
    requires forall x :: x in k.table && k.table[x].value == k.table[id].value ==> x == id
    ensures var k' := Outcome(k, now, RevokeToken(id)).1;
            !Authenticates(k', k.table[id].value, now) && !Usable(k'.table[id], now)
  {
    NobodyHolds(k.(table := Revoke(k.table, id)), k.table[id].value, now);
  }

  lemma OneHolderPurged(k: Keys, now: int, id: string)
    requires Purge(k.table, now, id).Ok? && k.table[id].value !in k.writeTokens
    requires forall x :: x in k.table && k.table[x].value == k.table[id].value ==> x == id
    ensures var k' := Outcome(k, now, PurgeToken(id)).1;
            !Authenticates(k', k.table[id].value, now) && id !in k'.table
  {
    NobodyHolds(k.(table := k.table - {id}), k.table[id].value, now);
  }

  // A token revoked or purged authenticates neither by its id nor its value.
  lemma RevocationKills(k: Keys, used: set<string>, now: int, id: string)
    requires Sound(k, used) && id in k.table
    ensures var k' := Outcome(k, now, RevokeToken(id)).1;
            !Authenticates(k', k.table[id].value, now) && !Usable(k'.table[id], now)
  {
    ValueHasOneHolder(k, used, id);
    OneHolderRevoked(k, now, id);
  }

  lemma PurgeKills(k: Keys, used: set<string>, now: int, id: string)
    requires Sound(k, used) && Purge(k.table, now, id).Ok?
    ensures var k' := Outcome(k, now, PurgeToken(id)).1;
            !Authenticates(k', k.table[id].value, now) && id !in k'.table
  {
    ValueHasOneHolder(k, used, id);
    OneHolderPurged(k, now, id);
  }

  // A rotation kills the value it replaces.
  lemma RotationKills(k: Keys, used: set<string>, now: int, op: Op)
    requires Sound(k, used) && Drawn(op, used) && op.RotateToken? && Try(k, now, op).Ok?
    ensures !Authenticates(Outcome(k, now, op).1, k.table[op.id].value, now)
  {
    var rec := k.table[op.id];
    assert Built(rec, op.id, used);
    SuffixOfBuilt(rec.consumer, op.draw);
    ValueHasOneHolder(k, used, op.id);
    NobodyHolds(Outcome(k, now, op).1, rec.value, now);
  }

  predicate Retires(op: Op, id: string) {
    match op
    case RotateToken(x, _, _) => x == id
    case RevokeToken(x) => x == id
    case PurgeToken(x) => x == id
    case _ => false
  }

  lemma OpKeepsToken(k: Keys, used: set<string>, now: int, op: Op, id: string)
    requires Drawn(op, used) && id in k.table && id in used && !Retires(op, id)
    ensures var t := Outcome(k, now, op).1.table; id in t && t[id] == k.table[id]
  {
  }

  // ------------------------------------------------------- what a request changes

  // A new token's value reads as its consumer from the start up to and
  // including the instant it expires, and so does a rotated one's.
  lemma NewValueReads(k: Keys, used: set<string>, now: int, op: Op, at: int)
    requires Sound(k, used) && Drawn(op, used) && (op.IssueToken? || op.RotateToken?)
    ensures op.IssueToken? ==>
              Bearer(Outcome(k, now, op).1.table, ValueOf(op.consumer, op.draw), at) ==
              if at <= now + op.ttl then Some(op.consumer) else None
    ensures op.RotateToken? && Try(k, now, op).Ok? ==>
              var rec := k.table[op.id];
              Bearer(Outcome(k, now, op).1.table, ValueOf(rec.consumer, op.draw), at) ==
              if at <= now + op.ttl then Some(rec.consumer) else None
  {
    var r := Try(k, now, op);
    if r.Ok? {
      var id := if op.IssueToken? then op.idDraw else op.id;
      OpStaysSound(k, used, now, op);
      ValueHasOneHolder(r.value, used + Draws(op), id);
      assert r.value.table[id].value in [r.value.table[id].value];
    }
  }

  // The read-token values a request is about.
  function Concerns(t: Table, op: Op): set<string> {
    match op
    case IssueToken(consumer, _, _, _, draw) => {ValueOf(consumer, draw)}
    case RotateToken(id, _, draw) => if id in t then {t[id].value, ValueOf(t[id].consumer, draw)} else {}
    case RevokeToken(id) => if id in t then {t[id].value} else {}
    case PurgeToken(id) => if id in t then {t[id].value} else {}
    case CreateWriteToken(_, _, _) => {}
  }

  lemma SameHolders(t: Table, t': Table, value: string, at: int)
    requires forall a, b :: a in t && b in t && t[a].value == value && t[b].value == value ==> a == b
    requires forall id :: id in t && t[id].value == value ==> id in t' && t'[id] == t[id]
    requires forall id :: id in t' && t'[id].value == value ==> id in t && t[id].value == value
    ensures Bearer(t', value, at) == Bearer(t, value, at)
  {
  }

  lemma OtherHolder(k: Keys, used: set<string>, now: int, op: Op, value: string, id: string)
    requires Drawn(op, used) && value !in Concerns(k.table, op) && (id in k.table ==> id in used)
    ensures var t, t' := k.table, Outcome(k, now, op).1.table;
            && (id in t && t[id].value == value ==> id in t' && t'[id] == t[id])
            && (id in t' && t'[id].value == value ==> id in t && t[id].value == value)
  {
    match op
    case IssueToken(_, _, _, _, _) =>
    case RotateToken(_, _, _) =>
    case RevokeToken(_) =>
    case PurgeToken(_) =>
    case CreateWriteToken(_, _, _) =>
  }

  // Every other value reads as before, now and at any later instant.
  lemma OtherValuesReadAsBefore(k: Keys, used: set<string>, now: int, op: Op, value: string, at: int)
    requires Sound(k, used) && Drawn(op, used) && value !in Concerns(k.table, op)
    ensures Bearer(Outcome(k, now, op).1.table, value, at) == Bearer(k.table, value, at)
  {
    var t, t' := k.table, Outcome(k, now, op).1.table;
    forall id
      ensures id in t && t[id].value == value ==> id in t' && t'[id] == t[id]
      ensures id in t' && t'[id].value == value ==> id in t && t[id].value == value
    {
      assert id in t ==> Built(t[id], id, used);
      OtherHolder(k, used, now, op, value, id);
    }
    forall a, b | a in t && b in t && t[a].value == value && t[b].value == value ensures a == b {
      ValueHasOneHolder(k, used, a);
    }
    SameHolders(t, t', value, at);
  }

  // A write token opens the server until the instant it expires; nothing
  // else changes which values do.
  lemma NewWriteTokenOpens(k: Keys, now: int, op: Op, value: string, at: int)
    ensures ValidWriteToken(Outcome(k, now, op).1.writeTokens, value, at) <==>
            if op.CreateWriteToken? && value == WriteValueOf(op.name, op.draw) then at < now + op.ttl
            else ValidWriteToken(k.writeTokens, value, at)
  {
  }

  // Issuing, revoking and purging a token leaves no trace of it.
  lemma IssueRevokePurge(t: Table, now: int, later: int, consumer: string, description: string, ttl: int, id: string, draw: string)
    requires id !in t
    ensures Purge(Revoke(Issue(t, now, consumer, description, ttl, id, draw), id), later, id) == Ok(t)
  {
    var t' := Revoke(Issue(t, now, consumer, description, ttl, id, draw), id);
    assert t' - {id} == t;
  }

  // ------------------------------------------------------- the value index

  // The index and the table are inverse to each other.
  ghost predicate Inverse(t: Table, ix: Index) {
    && (forall id :: id in t ==> t[id].value in ix && ix[t[id].value] == id)
    && (forall v :: v in ix ==> ix[v] in t && t[ix[v]].value == v)
  }

  // Storing a token under id keeps the index inverse exactly when neither
  // the id nor the value already belongs to something else.
  lemma IssueKeepsInverseIff(t: Table, ix: Index, id: string, rec: Token)
    requires Inverse(t, ix)
    ensures Inverse(t[id := rec], ix[rec.value := id]) <==>
            && (id in t ==> t[id].value == rec.value)
            && (rec.value in ix ==> ix[rec.value] == id)
  {
    var t', ix' := t[id := rec], ix[rec.value := id];
    if id in t && t[id].value != rec.value {
      assert t[id].value in ix' && t'[ix'[t[id].value]].value != t[id].value;
    }
    if rec.value in ix && ix[rec.value] != id {
      assert ix[rec.value] in t' && ix'[t'[ix[rec.value]].value] != ix[rec.value];
    }
  }

  // Replacing a token's value keeps it inverse exactly when the new value
  // is not another token's.
  lemma RotateKeepsInverseIff(t: Table, ix: Index, id: string, rec: Token)
    requires Inverse(t, ix) && id in t
    ensures Inverse(t[id := rec], (ix - {t[id].value})[rec.value := id]) <==>
            (rec.value in ix ==> ix[rec.value] == id)
  {
    var t', ix' := t[id := rec], (ix - {t[id].value})[rec.value := id];
    if rec.value in ix && ix[rec.value] != id {
      assert ix[rec.value] in t' && ix'[t'[ix[rec.value]].value] != ix[rec.value];
    }
  }

  lemma PurgeKeepsInverse(t: Table, ix: Index, id: string)
    requires Inverse(t, ix) && id in t
    ensures Inverse(t - {id}, ix - {t[id].value})
  {
  }

  // The index after a request, as the request writes it.
  function IndexAfter(t: Table, ix: Index, now: int, op: Op): Index {
    match op
    case IssueToken(consumer, _, _, id, draw) => ix[ValueOf(consumer, draw) := id]
    case RotateToken(id, ttl, draw) =>
      if Rotate(t, now, id, ttl, draw).Ok? then (ix - {t[id].value})[ValueOf(t[id].consumer, draw) := id] else ix
    case PurgeToken(id) => if Purge(t, now, id).Ok? then ix - {t[id].value} else ix
    case RevokeToken(_) => ix
    case CreateWriteToken(_, _, _) => ix
  }

  // A new draw makes a value no token holds yet: what issuing and rotating
  // rely on to keep the value index inverse.
  lemma FreshDrawsAreFree(k: Keys, ix: Index, used: set<string>, consumer: string, draw: string)
    requires Sound(k, used) && Inverse(k.table, ix)
    requires draw !in used && |draw| == DRAW_LENGTH
    ensures ValueOf(consumer, draw) !in ix && draw !in k.table
  {
    SuffixOfBuilt(consumer, draw);
    assert forall x :: x in k.table ==> Built(k.table[x], x, used);
  }

  lemma NewIdIsFree(k: Keys, used: set<string>, id: string)
    requires Sound(k, used) && id !in used
    ensures id !in k.table
  {
    assert id in k.table ==> Built(k.table[id], id, used);
  }

  // While the entropy source works, every request keeps index and table
  // inverse.
  lemma OpKeepsInverse(k: Keys, ix: Index, used: set<string>, now: int, op: Op)
    requires Sound(k, used) && Drawn(op, used) && Inverse(k.table, ix)
    ensures Inverse(Outcome(k, now, op).1.table, IndexAfter(k.table, ix, now, op))
  {
    match op
    case IssueToken(_, _, _, _, _) => NewTokenKeepsInverse(k, ix, used, now, op);
    case RotateToken(_, _, _) => RotationKeepsInverse(k, ix, used, now, op);
    case PurgeToken(id) => if id in k.table { PurgeKeepsInverse(k.table, ix, id); }
    case RevokeToken(id) => RevocationKeepsInverse(k.table, ix, id);
    case CreateWriteToken(_, _, _) =>
  }

  lemma RevocationKeepsInverse(t: Table, ix: Index, id: string)
    requires Inverse(t, ix)
    ensures Inverse(Revoke(t, id), ix)
  {
  }

  lemma NewTokenKeepsInverse(k: Keys, ix: Index, used: set<string>, now: int, op: Op)
    requires Sound(k, used) && Drawn(op, used) && Inverse(k.table, ix) && op.IssueToken?
    ensures Inverse(Outcome(k, now, op).1.table, IndexAfter(k.table, ix, now, op))
  {
    FreshDrawsAreFree(k, ix, used, op.consumer, op.draw);
    NewIdIsFree(k, used, op.idDraw);
    IssueKeepsInverseIff(k.table, ix, op.idDraw, Issued(now, op.consumer, op.description, op.ttl, op.idDraw, op.draw));
  }

  lemma RotationKeepsInverse(k: Keys, ix: Index, used: set<string>, now: int, op: Op)
    requires Sound(k, used) && Drawn(op, used) && Inverse(k.table, ix) && op.RotateToken?
    ensures Inverse(Outcome(k, now, op).1.table, IndexAfter(k.table, ix, now, op))
  {
    if op.id in k.table {
      FreshDrawsAreFree(k, ix, used, k.table[op.id].consumer, op.draw);
      RotateKeepsInverseIff(k.table, ix, op.id, Rotated(k.table[op.id], now, op.ttl, op.draw));
    }
  }

  // What presenting a value finds by way of the index. An index entry
  // without a record crashes the request.
  function LookUp(t: Table, ix: Index, value: string, now: int): Result<Option<string>> {
    if value !in ix then Ok(None)
    else if ix[value] !in t then Err(Crashed)
    else if Usable(t[ix[value]], now) then Ok(Some(t[ix[value]].consumer))
    else Ok(None)
  }

  // Through an inverse index that is the value's bearer, and never a crash.
  lemma LookUpFindsBearer(t: Table, ix: Index, value: string, now: int)
    requires Inverse(t, ix)
    ensures LookUp(t, ix, value, now) == Ok(Bearer(t, value, now))
  {
  }

  // When the entropy source fails, a draw is the fixed fallback. Issue two
  // tokens so, to any two consumers: the index is inverse no longer, and the
  // first consumer's value reads as the second consumer. Revoke and purge
  // that one token, and presenting the first value crashes.
  lemma FallbackDrawsBreakTheIndex(a: string, b: string, now: int, ttl: int)
    requires a != b && ttl >= 0
    ensures var first := Issued(now, a, "", ttl, FALLBACK, FALLBACK);
            var t1, ix1 := map[FALLBACK := first], map[first.value := FALLBACK];
            var op := IssueToken(b, "", ttl, FALLBACK, FALLBACK);
            var t2, ix2 := Try(Keys(t1, map[]), now, op).value.table, IndexAfter(t1, ix1, now, op);
            var purge := PurgeToken(FALLBACK);
            var t3 := Revoke(t2, FALLBACK);
            && Inverse(t1, ix1) && !Inverse(t2, ix2)
            && LookUp(t1, ix1, first.value, now) == Ok(Some(a))
            && LookUp(t2, ix2, first.value, now) == Ok(Some(b))
            && Purge(t3, now, FALLBACK).Ok?
            && LookUp(Purge(t3, now, FALLBACK).value, IndexAfter(t3, ix2, now, purge), first.value, now) == Err(Crashed)
  {
    var first := Issued(now, a, "", ttl, FALLBACK, FALLBACK);
    var second := Issued(now, b, "", ttl, FALLBACK, FALLBACK);
    if first.value == second.value { ValuesInjective(a, FALLBACK, b, FALLBACK); }
    IssueKeepsInverseIff(map[FALLBACK := first], map[first.value := FALLBACK], FALLBACK, second);
  }

  // ------------------------------------------------------- views of the state

  datatype Status = Active | Expired | Revoked

  // What may be done to a token next.
  datatype Action = DoRotate | DoRevoke | DoPurge

  // A token's metadata on the wire; an older server sends neither of the
  // last two.
  datatype Metadata = Metadata(token: Token, status: Option<Status>, actions: Option<seq<Action>>)

  function ServerStatus(rec: Token, now: int): Status {
    if rec.revoked then Revoked else if now >= rec.expiresAt then Expired else Active
  }

  function ServerMetadata(rec: Token, now: int): Metadata {
    var status := ServerStatus(rec, now);
    Metadata(rec.(value := ""), Some(status), Some(if status.Active? then [DoRotate, DoRevoke] else [DoPurge]))
  }

  // The client fills in whichever of the two was not sent.
  function WithDerivedState(m: Metadata, now: int): Metadata {
    var status :=
      if m.status.Some? then m.status.value
      else if m.token.revoked then Revoked
      else if now >= m.token.expiresAt then Expired
      else Active;
    var actions :=
      if m.actions.Some? then m.actions.value
      else if status.Active? then [DoRotate, DoRevoke]
      else [DoPurge];
    Metadata(m.token, Some(status), Some(actions))
  }

  function Without(m: Metadata, status: bool, actions: bool): Metadata {
    m.(status := if status then None else m.status, actions := if actions then None else m.actions)
  }

  // Whatever subset of the two an older server leaves out, the client's view
  // is the server's own.
  lemma ViewsAgree(rec: Token, now: int, status: bool, actions: bool)
    ensures WithDerivedState(Without(ServerMetadata(rec, now), status, actions), now) == ServerMetadata(rec, now)
  {
  }

  predicate Succeeds(t: Table, now: int, id: string, ttl: int, draw: string, action: Action) {
    match action
    case DoRotate => Rotate(t, now, id, ttl, draw).Ok?
    case DoRevoke => id in t
    case DoPurge => Purge(t, now, id).Ok?
  }

  // A token's status as its record has it: revoked once revoked, otherwise
  // active before its expiry and expired from that instant on. Rotate and
  // revoke are listed for the active, purge for the others; the metadata
  // shows the record without its value.
  lemma MetadataMeans(rec: Token, now: int)
    ensures var m := ServerMetadata(rec, now);
            && (m.status == Some(Revoked) <==> rec.revoked)
            && (m.status == Some(Active) <==> !rec.revoked && now < rec.expiresAt)
            && (DoRotate in m.actions.value <==> m.status == Some(Active))
            && (DoRevoke in m.actions.value <==> m.status == Some(Active))
            && (DoPurge in m.actions.value <==> m.status != Some(Active))
            && m.token.value == "" && m.token.(value := rec.value) == rec
  {
    assert [DoRotate, DoRevoke][0] == DoRotate && [DoRotate, DoRevoke][1] == DoRevoke && [DoPurge][0] == DoPurge;
  }

  // What the record of a token says after each request about it: as issued;
  // after a rotation a new expiry and value and nothing else; after a
  // revocation the mark and nothing else.
  lemma RecordMeans(k: Keys, now: int, op: Op)
    ensures var t := Outcome(k, now, op).1.table;
            && (op.IssueToken? ==>
                  && op.idDraw in t
                  && var rec := t[op.idDraw];
                     && rec.id == op.idDraw && rec.consumer == op.consumer && rec.description == op.description
                     && rec.createdAt == now && rec.expiresAt == now + op.ttl && !rec.revoked)
            && (op.RotateToken? && Outcome(k, now, op).0.None? ==>
                  && op.id in k.table && op.id in t && t[op.id].expiresAt == now + op.ttl
                  && t[op.id].(expiresAt := k.table[op.id].expiresAt, value := k.table[op.id].value) == k.table[op.id])
            && (op.RevokeToken? && op.id in k.table ==>
                  op.id in t && t[op.id].revoked && t[op.id].(revoked := k.table[op.id].revoked) == k.table[op.id])
  {
  }

  // Rotation is refused for the unknown, the revoked and the long expired
  // alike; purge tells an unknown token from an active one; the other
  // requests are never refused.
  lemma RefusalsMean(k: Keys, now: int, op: Op)
    ensures var refused := Outcome(k, now, op).0;
            && (op.RotateToken? ==>
                  refused == if op.id in k.table && !k.table[op.id].revoked && now <= k.table[op.id].expiresAt then None
                             else Some(TokenNotFound))
            && (op.PurgeToken? ==>
                  refused == if op.id !in k.table then Some(TokenNotFound)
                             else if !k.table[op.id].revoked && now < k.table[op.id].expiresAt then Some(TokenActive)
                             else None)
            && (op.IssueToken? || op.RevokeToken? || op.CreateWriteToken? ==> refused == None)
    ensures op.PurgeToken? && Outcome(k, now, op).0.None? ==> op.id !in Outcome(k, now, op).1.table
    ensures Outcome(k, now, op).0.Some? ==> Outcome(k, now, op).1 == k
  {
  }

  // Every listed action succeeds, and purge succeeds on exactly the tokens
  // that list it. Rotate succeeds once more than it is listed: at the very
  // instant of expiry, when the token also still authenticates.
  lemma ListedActionsSucceed(t: Table, now: int, id: string, ttl: int, draw: string, action: Action)
    requires id in t
    ensures var listed := action in ServerMetadata(t[id], now).actions.value;
            && (listed ==> Succeeds(t, now, id, ttl, draw, action))
            && (action == DoPurge && Succeeds(t, now, id, ttl, draw, action) ==> listed)
            && (action == DoRotate && Succeeds(t, now, id, ttl, draw, action) ==>
                  listed || (!t[id].revoked && now == t[id].expiresAt))
    ensures Usable(t[id], now) <==>
            ServerStatus(t[id], now).Active? || (!t[id].revoked && now == t[id].expiresAt)
  {
    assert DoPurge in [DoPurge];
    assert forall a: Action :: a in [DoPurge] <==> a == DoPurge;
    assert forall a: Action :: a in [DoRotate, DoRevoke] <==> a == DoRotate || a == DoRevoke;
    assert [DoRotate, DoRevoke][0] == DoRotate;
  }
}
