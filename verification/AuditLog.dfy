// The append-only audit log and the server's query over it.
module AuditLog {
  import opened Prelude

  datatype Entry = Entry(
    id: int,
    objectId: string,
    action: string,
    timestamp: int,
    caller: Option<string>,
    ip: string,
    actor: Option<string>)

  // Filter fields combine with AND; an unset field accepts everything.
  datatype Criteria = Criteria(
    objectId: Option<string>,
    caller: Option<string>,
    actor: Option<string>,
    from: Option<int>,
    to: Option<int>)

  const PAGE_MAX := 500
  const DEFAULT_PAGE := 50

  predicate AlphaNumeric(c: char) {
    'A' <= c <= 'Z' || 'a' <= c <= 'z' || '0' <= c <= '9'
  }

  predicate ValidObjectId(s: string) {
    s != [] && AlphaNumeric(s[0]) &&
    forall i :: 0 <= i < |s| ==> AlphaNumeric(s[i]) || s[i] == '_' || s[i] == '-'
  }

  predicate Accepts(f: Criteria, e: Entry) {
    && (f.objectId.Some? ==> e.objectId == f.objectId.value)
    && (f.caller.Some? ==> e.caller == f.caller)
    && (f.actor.Some? ==> e.actor == f.actor)
    && (f.from.Some? ==> f.from.value <= e.timestamp)
    && (f.to.Some? ==> e.timestamp <= f.to.value)
  }

  predicate AcceptsAfter(f: Criteria, after: Option<int>, e: Entry) {
    Accepts(f, e) && (after.Some? ==> after.value < e.id)
  }

  function Accepting(f: Criteria): Entry -> bool {
    e => Accepts(f, e)
  }

  function AcceptingAfter(f: Criteria, after: Option<int>): Entry -> bool {
    e => AcceptsAfter(f, after, e)
  }

  function Take<T>(s: seq<T>, n: int): (r: seq<T>)
    requires n >= 0
  {
    s[..Min(n, |s|)]
  }

  // All entries that match, in id order.
  function Matching(log: seq<Entry>, f: Criteria): seq<Entry> {
    Filter(log, Accepting(f))
  }

  // One page of the server's answer.
  function Page(log: seq<Entry>, f: Criteria, after: Option<int>, limit: Option<int>): Result<seq<Entry>> {
    var n := if limit.Some? then limit.value else DEFAULT_PAGE;
    if f.objectId.Some? && !ValidObjectId(f.objectId.value) then Err(InvalidFilter)
    else if n < 1 || n > PAGE_MAX then Err(InvalidFilter)
    else Ok(Take(Filter(log, AcceptingAfter(f, after)), n))
  }

  // A scan may stop as soon as it has a full page.
  lemma StopEarly(log: seq<Entry>, p: Entry -> bool, i: nat, n: nat)
    requires i <= |log|
    requires |Filter(log[..i], p)| == n || (i == |log| && |Filter(log[..i], p)| <= n)
    ensures Take(Filter(log, p), n) == Filter(log[..i], p)
  {
    assert log == log[..i] + log[i..];
    FilterAppend(log[..i], log[i..], p);
  }

  // Ids count up from one in the order of recording.
  ghost predicate Numbered(log: seq<Entry>) {
    forall i :: 0 <= i < |log| ==> log[i].id == i + 1
  }

  ghost predicate Increasing(log: seq<Entry>) {
    forall i, j :: 0 <= i < j < |log| ==> log[i].id < log[j].id
  }

  function Recorded(log: seq<Entry>, now: int, e: Entry, stamped: bool): seq<Entry> {
    log + [e.(id := |log| + 1, timestamp := if stamped then e.timestamp else now)]
  }

  lemma {:induction false} MatchingIncreasing(log: seq<Entry>, f: Criteria)
    requires Increasing(log)
    ensures Increasing(Matching(log, f))
  {
    if log != [] {
      var front, last := log[..|log| - 1], log[|log| - 1];
      MatchingIncreasing(front, f);
      assert log == front + [last];
      FilterSnoc(front, last, Accepting(f));
      forall e | e in Matching(front, f) ensures e.id < last.id {
        FilterMember(front, Accepting(f), e);
        var i :| 0 <= i < |front| && front[i] == e;
        assert log[i] == e;
      }
    }
  }

  lemma {:induction false} NoneBeyond(log: seq<Entry>, f: Criteria, cursor: int)
    requires forall i :: 0 <= i < |log| ==> log[i].id <= cursor
    ensures Filter(log, AcceptingAfter(f, Some(cursor))) == []
  {
    if log != [] {
      var front, last := log[..|log| - 1], log[|log| - 1];
      assert log == front + [last];
      NoneBeyond(front, f, cursor);
      FilterSnoc(front, last, AcceptingAfter(f, Some(cursor)));
    }
  }

  lemma MatchIsEntry(log: seq<Entry>, f: Criteria, k: nat) returns (i: nat)
    requires k < |Matching(log, f)|
    ensures i < |log| && log[i] == Matching(log, f)[k] && Accepts(f, log[i])
  {
    assert Matching(log, f)[k] in Matching(log, f);
    FilterMember(log, Accepting(f), Matching(log, f)[k]);
    i :| 0 <= i < |log| && log[i] == Matching(log, f)[k];
  }

  lemma MatchingSnoc(front: seq<Entry>, last: Entry, f: Criteria, after: Option<int>)
    ensures Matching(front + [last], f) == Matching(front, f) + if Accepts(f, last) then [last] else []
    ensures Filter(front + [last], AcceptingAfter(f, after)) ==
            Filter(front, AcceptingAfter(f, after)) + if AcceptsAfter(f, after, last) then [last] else []
  {
    FilterSnoc(front, last, Accepting(f));
    FilterSnoc(front, last, AcceptingAfter(f, after));
  }

  // The matches behind the cursor, one entry later.
  lemma CursorSnoc(front: seq<Entry>, last: Entry, f: Criteria, k: nat)
    requires Increasing(front + [last])
    requires k < |Matching(front, f)|
    requires Filter(front, AcceptingAfter(f, Some(Matching(front, f)[k].id))) == Matching(front, f)[k + 1..]
    ensures Matching(front + [last], f)[..|Matching(front, f)|] == Matching(front, f)
    ensures Filter(front + [last], AcceptingAfter(f, Some(Matching(front, f)[k].id))) ==
            Matching(front + [last], f)[k + 1..]
  {
    var m := Matching(front, f);
    MatchingSnoc(front, last, f, Some(m[k].id));
    var i := MatchIsEntry(front, f, k);
    assert (front + [last])[i].id < (front + [last])[|front|].id;
  }

  // The cursor splits the matches exactly behind the entry it names: nothing
  // is skipped and nothing comes twice.
  lemma {:induction false} CursorSplits(log: seq<Entry>, f: Criteria, k: nat)
    requires Increasing(log)
    requires k < |Matching(log, f)|
    ensures Filter(log, AcceptingAfter(f, Some(Matching(log, f)[k].id))) == Matching(log, f)[k + 1..]
  {
    var front, last := log[..|log| - 1], log[|log| - 1];
    assert log == front + [last];
    if k < |Matching(front, f)| {
      CursorSplits(front, f, k);
      CursorSnoc(front, last, f, k);
      assert Matching(log, f)[k] == Matching(log, f)[..|Matching(front, f)|][k];
    } else {
      var cursor := Matching(log, f)[k].id;
      MatchingSnoc(front, last, f, Some(cursor));
      NoneBeyond(front, f, cursor);
    }
  }

  lemma {:induction false} NoCursor(log: seq<Entry>, f: Criteria)
    ensures Filter(log, AcceptingAfter(f, None)) == Matching(log, f)
  {
    if log != [] {
      var front, last := log[..|log| - 1], log[|log| - 1];
      assert log == front + [last];
      NoCursor(front, f);
      FilterSnoc(front, last, Accepting(f));
      FilterSnoc(front, last, AcceptingAfter(f, None));
    }
  }

  // Later entries only ever extend the list of matches.
  lemma MatchingExtends(log: seq<Entry>, more: seq<Entry>, f: Criteria)
    ensures Matching(log, f) <= Matching(log + more, f)
  {
    FilterAppend(log, more, Accepting(f));
  }

  // ------------------------------------------------------ what a filter means

  const NO_FILTER := Criteria(None, None, None, None, None)

  function OfObject(o: string): Entry -> bool {
    (e: Entry) => e.objectId == o
  }

  function CalledBy(c: string): Entry -> bool {
    (e: Entry) => e.caller == Some(c)
  }

  function ActedBy(a: string): Entry -> bool {
    (e: Entry) => e.actor == Some(a)
  }

  function NoEarlierThan(time: int): Entry -> bool {
    (e: Entry) => time <= e.timestamp
  }

  function NoLaterThan(time: int): Entry -> bool {
    (e: Entry) => e.timestamp <= time
  }

  // Without a filter every entry matches, and each field that is set narrows
  // what the others let through to the entries that carry its value; the two
  // bounds in time are inclusive, and an entry without a caller or an actor
  // matches no wanted one.
  lemma NoFilterTakesAll(log: seq<Entry>)
    ensures Matching(log, NO_FILTER) == log
  {
    FilterOfAll(log, Accepting(NO_FILTER));
  }

  lemma ObjectNarrows(log: seq<Entry>, f: Criteria, o: string)
    ensures Matching(log, f.(objectId := Some(o))) == Filter(Matching(log, f.(objectId := None)), OfObject(o))
  {
    FilterNarrows(log, Accepting(f.(objectId := None)), OfObject(o), Accepting(f.(objectId := Some(o))));
  }

  lemma CallerNarrows(log: seq<Entry>, f: Criteria, c: string)
    ensures Matching(log, f.(caller := Some(c))) == Filter(Matching(log, f.(caller := None)), CalledBy(c))
  {
    FilterNarrows(log, Accepting(f.(caller := None)), CalledBy(c), Accepting(f.(caller := Some(c))));
  }

  lemma ActorNarrows(log: seq<Entry>, f: Criteria, a: string)
    ensures Matching(log, f.(actor := Some(a))) == Filter(Matching(log, f.(actor := None)), ActedBy(a))
  {
    FilterNarrows(log, Accepting(f.(actor := None)), ActedBy(a), Accepting(f.(actor := Some(a))));
  }

  lemma StartNarrows(log: seq<Entry>, f: Criteria, time: int)
    ensures Matching(log, f.(from := Some(time))) == Filter(Matching(log, f.(from := None)), NoEarlierThan(time))
  {
    FilterNarrows(log, Accepting(f.(from := None)), NoEarlierThan(time), Accepting(f.(from := Some(time))));
  }

  lemma EndNarrows(log: seq<Entry>, f: Criteria, time: int)
    ensures Matching(log, f.(to := Some(time))) == Filter(Matching(log, f.(to := None)), NoLaterThan(time))
  {
    FilterNarrows(log, Accepting(f.(to := None)), NoLaterThan(time), Accepting(f.(to := Some(time))));
  }

  // The entry carries every value the filter wants.
  ghost predicate Carries(f: Criteria, e: Entry) {
    && (f.objectId.Some? ==> OfObject(f.objectId.value)(e))
    && (f.caller.Some? ==> CalledBy(f.caller.value)(e))
    && (f.actor.Some? ==> ActedBy(f.actor.value)(e))
    && (f.from.Some? ==> NoEarlierThan(f.from.value)(e))
    && (f.to.Some? ==> NoLaterThan(f.to.value)(e))
  }

  // The matches are exactly the entries of the log that do.
  lemma MatchingCarries(log: seq<Entry>, f: Criteria, e: Entry)
    ensures e in Matching(log, f) <==> e in log && Carries(f, e)
  {
    FilterMember(log, Accepting(f), e);
  }

  // An entry just recorded is the last one without a filter: everything as
  // given, the next id, and its own time or, without one, the server's.
  lemma RecordedComesLast(log: seq<Entry>, now: int, e: Entry, stamped: bool)
    requires Numbered(log)
    ensures var m := Matching(Recorded(log, now, e, stamped), NO_FILTER);
            && m != [] && m[..|m| - 1] == log
            && var last := m[|m| - 1];
               && last.id == |log| + 1 && last.timestamp == (if stamped then e.timestamp else now)
               && (last.objectId, last.action, last.caller, last.ip, last.actor) ==
                  (e.objectId, e.action, e.caller, e.ip, e.actor)
  {
    NoFilterTakesAll(Recorded(log, now, e, stamped));
  }

  // A page is refused exactly for a malformed object id or a limit outside
  // one to five hundred; without a limit it holds up to fifty entries, and
  // every entry in it lies behind the cursor.
  lemma PageMeans(log: seq<Entry>, f: Criteria, after: Option<int>, limit: Option<int>)
    ensures var r := Page(log, f, after, limit);
            && (r.Err? <==> (f.objectId.Some? && !ValidObjectId(f.objectId.value)) ||
                            (limit.Some? && !(1 <= limit.value <= 500)))
            && (r.Err? ==> r.error == InvalidFilter)
            && (r.Ok? ==> |r.value| <= if limit.Some? then limit.value else 50)
            && (r.Ok? && after.Some? ==> forall e :: e in r.value ==> e.id > after.value)
    ensures Page(log, f, after, None) == Page(log, f, after, Some(50))
  {
    var r := Page(log, f, after, limit);
    if r.Ok? {
      forall e | e in r.value ensures AcceptsAfter(f, after, e) {
        FilterMember(log, AcceptingAfter(f, after), e);
      }
    }
  }

  // Well-formed object ids, by how they are built: a letter or digit, and
  // after that any of these, an underscore or a hyphen.
  lemma ValidObjectIdByParts(s: string, c: char)
    ensures !ValidObjectId("")
    ensures ValidObjectId([c]) <==> c in ALPHANUMERICS
    ensures s != "" ==> (ValidObjectId(s + [c]) <==> ValidObjectId(s) && (c in ALPHANUMERICS || c in "_-"))
  {
    AlphaNumericMeans(c);
    if s != "" && ValidObjectId(s + [c]) {
      assert forall i :: 0 <= i < |s| ==> (s + [c])[i] == s[i];
      assert (s + [c])[|s|] == c;
    }
  }

  const ALPHANUMERICS: string := UPPER + LOWER + DIGITS
  const UPPER: string := "ABCDEFGHIJKLM" + "NOPQRSTUVWXYZ"
  const LOWER: string := "abcdefghijklm" + "nopqrstuvwxyz"
  const DIGITS: string := "0123456789"

  lemma UpperMeans(c: char)
    ensures c in UPPER <==> 'A' <= c <= 'Z'
  {
    if 'A' <= c <= 'Z' { assert UPPER[c as int - 'A' as int] == c; }
  }

  lemma LowerMeans(c: char)
    ensures c in LOWER <==> 'a' <= c <= 'z'
  {
    if 'a' <= c <= 'z' { assert LOWER[c as int - 'a' as int] == c; }
  }

  lemma DigitsMeans(c: char)
    ensures c in DIGITS <==> '0' <= c <= '9'
  {
    if '0' <= c <= '9' { assert DIGITS[c as int - '0' as int] == c; }
  }

  lemma AlphaNumericMeans(c: char)
    ensures AlphaNumeric(c) <==> c in ALPHANUMERICS
  {
    UpperMeans(c);
    LowerMeans(c);
    DigitsMeans(c);
  }
}
