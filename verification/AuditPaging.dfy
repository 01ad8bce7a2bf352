// The client's audit-log query: follow the id cursor, page by page, against a
// server that keeps answering other requests in between.
module AuditPaging {
  import opened Prelude
  import opened Machine
  import opened Runs
  import A = AuditLog

  // How many entries one request asks for.
  function PageLimit(cap: Option<int>): (n: int)
    ensures 1 <= n <= A.PAGE_MAX
  {
    if cap.Some? && 0 < cap.value < A.PAGE_MAX then cap.value else A.PAGE_MAX
  }

  // The loop looks at the cap only after taking an entry, so it never stops
  // short of one.
  function Stop(cap: int): (n: int)
    ensures n >= 1
  {
    if cap < 1 then 1 else cap
  }

  function FirstMatches(log: seq<A.Entry>, f: A.Criteria, cap: Option<int>): seq<A.Entry> {
    var m := A.Matching(log, f);
    if cap.Some? then A.Take(m, Stop(cap.value)) else m
  }

  lemma FirstMatchesCarry(log: seq<A.Entry>, f: A.Criteria, cap: Option<int>)
    ensures forall e :: e in FirstMatches(log, f, cap) ==> e in log && A.Carries(f, e)
  {
    forall e | e in FirstMatches(log, f, cap) ensures e in log && A.Carries(f, e) {
      A.MatchingCarries(log, f, e);
    }
  }

  // Without a limit they are all the matches, and with a positive one the
  // first so many of them.
  lemma FirstMatchesMean(log: seq<A.Entry>, f: A.Criteria, limit: nat)
    requires limit > 0
    ensures FirstMatches(log, f, None) == A.Matching(log, f)
    ensures FirstMatches(log, f, Some(limit)) <= A.Matching(log, f)
    ensures |FirstMatches(log, f, Some(limit))| == Min(limit, |A.Matching(log, f)|)
  {
  }

  predicate BadFilter(f: A.Criteria) {
    f.objectId.Some? && !A.ValidObjectId(f.objectId.value)
  }

  // How many entries k full pages hold.
  function Span(page: int, k: nat): int {
    if k == 0 then 0 else Span(page, k - 1) + page
  }

  // The k-th request is the first with which n matches are seen through: it
  // reaches the cap, or comes back short.
  predicate SeesThrough(k: nat, n: nat, cap: Option<int>) {
    var page := PageLimit(cap);
    k >= 1 &&
    if cap.Some? && n >= Stop(cap.value) then Span(page, k - 1) < Stop(cap.value) <= Span(page, k)
    else Span(page, k - 1) <= n < Span(page, k)
  }

  // Appends a page entry by entry, stopping once the cap is reached.
  method AppendPage(result: seq<A.Entry>, page: seq<A.Entry>, cap: Option<int>)
    returns (r: seq<A.Entry>, full: bool)
    requires cap.Some? ==> |result| < Stop(cap.value)
    ensures full <==> cap.Some? && |result| + |page| >= Stop(cap.value)
    ensures r == if full then (result + page)[..Stop(cap.value)] else result + page
  {
    r := result;
    for i := 0 to |page|
      invariant r == result + page[..i]
      invariant cap.Some? ==> |r| < Stop(cap.value)
    {
      r := r + [page[i]];
      assert page[..i + 1] == page[..i] + [page[i]];
      if cap.Some? && |r| >= cap.value {
        assert r == (result + page)[..|r|];
        return r, true;
      }
    }
    assert page[..|page|] == page;
    return r, false;
  }

  // The page behind the cursor is the next stretch of the matches.
  lemma NextPage(log: seq<A.Entry>, f: A.Criteria, taken: nat, after: Option<int>, limit: int)
    requires A.Numbered(log) && taken <= |A.Matching(log, f)| && 1 <= limit <= A.PAGE_MAX && !BadFilter(f)
    requires taken == 0 ==> after == None
    requires taken > 0 ==> after == Some(A.Matching(log, f)[taken - 1].id)
    ensures A.Page(log, f, after, Some(limit)) ==
            Ok(A.Matching(log, f)[taken..Min(taken + limit, |A.Matching(log, f)|)])
  {
    var m := A.Matching(log, f);
    if taken == 0 {
      A.NoCursor(log, f);
      assert m[0..] == m;
    } else {
      A.CursorSplits(log, f, taken - 1);
    }
    assert A.Take(m[taken..], limit) == m[taken..Min(taken + limit, |m|)];
  }

  // The log as successive requests find it: it only grows, and after the last
  // entry it stays as it is.
  ghost predicate Growing(logs: seq<seq<A.Entry>>) {
    logs != [] && (forall i :: 0 <= i < |logs| ==> A.Numbered(logs[i])) &&
    forall i, j :: 0 <= i <= j < |logs| ==> logs[i] <= logs[j]
  }

  // Whatever requests other clients interleave, that is what a client meets.
  lemma HistoriesGrow(history: seq<State>, logs: seq<seq<A.Entry>>)
    requires IsHistory(history, ANYTHING) && |logs| == |history|
    requires forall i :: 0 <= i < |logs| ==> logs[i] == history[i].log
    ensures Growing(logs)
  {
    forall i, j | 0 <= i <= j < |logs| ensures logs[i] <= logs[j] && A.Numbered(logs[j]) {
      HistoryGrows(history, ANYTHING, i, j);
    }
  }

  function MetLog(logs: seq<seq<A.Entry>>, k: nat): seq<A.Entry>
    requires logs != []
  {
    logs[Min(k, |logs| - 1)]
  }

  // The matches the k-th request meets.
  ghost function Seen(logs: seq<seq<A.Entry>>, k: nat, f: A.Criteria): seq<A.Entry>
    requires logs != []
  {
    A.Matching(MetLog(logs, k), f)
  }

  lemma SeenGrows(logs: seq<seq<A.Entry>>, f: A.Criteria, i: nat, j: nat)
    requires Growing(logs) && i <= j
    ensures Seen(logs, i, f) <= Seen(logs, j, f)
  {
    var a, b := MetLog(logs, i), MetLog(logs, j);
    assert a + b[|a|..] == b;
    A.MatchingExtends(a, b[|a|..], f);
  }

  // Where the loop stands after k full pages: it holds a prefix of the
  // matches last seen, and the cursor names its last entry.
  ghost predicate Standing(logs: seq<seq<A.Entry>>, f: A.Criteria, cap: Option<int>, k: nat,
                           result: seq<A.Entry>, after: Option<int>)
    requires logs != []
  {
    && |result| == Span(PageLimit(cap), k)
    && (cap.Some? ==> |result| < Stop(cap.value))
    && (k == 0 ==> after == None)
    && (k > 0 ==> !BadFilter(f) && result != [] && result <= Seen(logs, k - 1, f) &&
                  after == Some(result[|result| - 1].id))
  }

  lemma PageMet(logs: seq<seq<A.Entry>>, f: A.Criteria, cap: Option<int>, k: nat, result: seq<A.Entry>, after: Option<int>)
    requires Growing(logs) && Standing(logs, f, cap, k, result, after)
    ensures result <= Seen(logs, k, f)
    ensures var m, limit := Seen(logs, k, f), PageLimit(cap);
            A.Page(MetLog(logs, k), f, after, Some(limit)) ==
            if BadFilter(f) then Err(InvalidFilter) else Ok(m[|result|..Min(|result| + limit, |m|)])
  {
    SeenGrows(logs, f, if k == 0 then 0 else k - 1, k);
    if !BadFilter(f) {
      NextPage(MetLog(logs, k), f, |result|, after, PageLimit(cap));
    }
  }

  // A full page that does not reach the cap leads to the next standing.
  lemma FullPage(logs: seq<seq<A.Entry>>, f: A.Criteria, cap: Option<int>, k: nat, result: seq<A.Entry>, after: Option<int>)
    requires logs != [] && Standing(logs, f, cap, k, result, after) && !BadFilter(f)
    requires var m, limit := Seen(logs, k, f), PageLimit(cap);
             result <= m && |result| + limit <= |m| && (cap.Some? ==> |result| + limit < Stop(cap.value))
    ensures var m, n := Seen(logs, k, f), |result| + PageLimit(cap);
            Standing(logs, f, cap, k + 1, m[..n], Some(m[n - 1].id))
  {
  }

  // The last page completes the answer.
  lemma LastPage(logs: seq<seq<A.Entry>>, f: A.Criteria, cap: Option<int>, k: nat, result: seq<A.Entry>, after: Option<int>)
    requires logs != [] && Standing(logs, f, cap, k, result, after)
    requires result <= Seen(logs, k, f)
    ensures var m, n := Seen(logs, k, f), Min(|result| + PageLimit(cap), |Seen(logs, k, f)|);
            && (cap.Some? && n >= Stop(cap.value) ==>
                  m[..Stop(cap.value)] == FirstMatches(MetLog(logs, k), f, cap) && SeesThrough(k + 1, |m|, cap))
            && (n < |result| + PageLimit(cap) && (cap.Some? ==> n < Stop(cap.value)) ==>
                  m == FirstMatches(MetLog(logs, k), f, cap) && SeesThrough(k + 1, |m|, cap))
  {
  }

  lemma PrefixAndNext(result: seq<A.Entry>, m: seq<A.Entry>, n: nat)
    requires result <= m && |result| <= n <= |m|
    ensures result + m[|result|..n] == m[..n]
    ensures m[..|m|] == m
  {
  }

  // What taking a page in leads to: the answer, if it was the last, or else
  // the next standing.
  lemma PageTaken(logs: seq<seq<A.Entry>>, f: A.Criteria, cap: Option<int>, k: nat, result: seq<A.Entry>,
                  after: Option<int>, page: seq<A.Entry>)
    requires logs != [] && Standing(logs, f, cap, k, result, after) && !BadFilter(f)
    requires var m := Seen(logs, k, f);
             result <= m && page == m[|result|..Min(|result| + PageLimit(cap), |m|)]
    ensures var m, all, log := Seen(logs, k, f), result + page, MetLog(logs, k);
            && (cap.Some? && |all| >= Stop(cap.value) ==>
                  all[..Stop(cap.value)] == FirstMatches(log, f, cap) && SeesThrough(k + 1, |m|, cap))
            && (|page| < PageLimit(cap) && (cap.Some? ==> |all| < Stop(cap.value)) ==>
                  all == FirstMatches(log, f, cap) && SeesThrough(k + 1, |m|, cap))
            && (|page| >= PageLimit(cap) && (cap.Some? ==> |all| < Stop(cap.value)) ==>
                  Standing(logs, f, cap, k + 1, all, Some(page[|page| - 1].id)))
  {
    var m, n := Seen(logs, k, f), Min(|result| + PageLimit(cap), |Seen(logs, k, f)|);
    PrefixAndNext(result, m, n);
    if cap.Some? && n >= Stop(cap.value) {
      LastPage(logs, f, cap, k, result, after);
      assert m[..n][..Stop(cap.value)] == m[..Stop(cap.value)];
    } else if n < |result| + PageLimit(cap) {
      LastPage(logs, f, cap, k, result, after);
    } else {
      FullPage(logs, f, cap, k, result, after);
    }
  }

  // However long the loop goes on, it never holds more than the last log's
  // matches.
  lemma StandingIsBounded(logs: seq<seq<A.Entry>>, f: A.Criteria, cap: Option<int>, k: nat, result: seq<A.Entry>,
                          after: Option<int>)
    requires Growing(logs) && Standing(logs, f, cap, k, result, after) && k > 0
    ensures |result| <= |Seen(logs, |logs|, f)|
  {
    SeenGrows(logs, f, k - 1, k - 1 + |logs|);
    assert MetLog(logs, k - 1 + |logs|) == MetLog(logs, |logs|);
  }

  // How one turn of the loop ends.
  datatype TurnEnd =
    | Failed(error: Failure)
    | Finished(result: seq<A.Entry>)
    | Onward(result: seq<A.Entry>, after: Option<int>)

  // One request and what the loop does with its page.
  method Turn(logs: seq<seq<A.Entry>>, f: A.Criteria, cap: Option<int>, k: nat, result: seq<A.Entry>, after: Option<int>)
    returns (end: TurnEnd)
    requires Growing(logs) && Standing(logs, f, cap, k, result, after)
    ensures end.Failed? <==> BadFilter(f)
    ensures end.Failed? ==> end.error == InvalidFilter
    ensures end.Finished? ==> end.result == FirstMatches(MetLog(logs, k), f, cap) &&
                              SeesThrough(k + 1, |Seen(logs, k, f)|, cap)
    ensures end.Onward? ==> Standing(logs, f, cap, k + 1, end.result, end.after) && |end.result| > |result|
  {
    var limit := PageLimit(cap);
    var page := A.Page(MetLog(logs, k), f, after, Some(limit));
    PageMet(logs, f, cap, k, result, after);
    if page.Err? {
      return Failed(page.error);
    }
    PageTaken(logs, f, cap, k, result, after, page.value);
    var next, full := AppendPage(result, page.value, cap);
    if full || |page.value| < limit {
      return Finished(next);
    }
    return Onward(next, Some(page.value[|page.value| - 1].id));
  }

  // Whatever other requests run in between, the result is the first matching
  // entries (up to the cap, if any) of the log as it stood when the last
  // request was made: no gap, no duplicate, in id order. It takes exactly as
  // many requests as that many matches need.
  method QueryAuditLog(logs: seq<seq<A.Entry>>, f: A.Criteria, cap: Option<int>)
    returns (r: Result<seq<A.Entry>>, requests: nat)
    requires Growing(logs)
    ensures requests >= 1
    ensures BadFilter(f) ==> r == Err(InvalidFilter)
    ensures !BadFilter(f) ==>
              var log := MetLog(logs, requests - 1);
              && r == Ok(FirstMatches(log, f, cap)) && SeesThrough(requests, |A.Matching(log, f)|, cap)
              && forall e :: e in r.value ==> e in log && A.Carries(f, e)
  {
    var result: seq<A.Entry>, after: Option<int> := [], None;
    requests := 0;
    while true
      invariant Standing(logs, f, cap, requests, result, after)
      invariant |result| <= |Seen(logs, |logs|, f)|
      decreases |Seen(logs, |logs|, f)| - |result|
    {
      var end := Turn(logs, f, cap, requests, result, after);
      requests := requests + 1;
      match end
      case Failed(e) => return Err(e), requests;
      case Finished(all) =>
        FirstMatchesCarry(MetLog(logs, requests - 1), f, cap);
        return Ok(all), requests;
      case Onward(more, cursor) =>
        StandingIsBounded(logs, f, cap, requests, more, cursor);
        result, after := more, cursor;
    }
  }

  lemma {:induction false} SpanIsProduct(page: int, k: nat)
    ensures Span(page, k) == page * k
  {
    if k > 0 { SpanIsProduct(page, k - 1); }
  }

  // The cost in closed form: with no cap, and whenever the cap is not
  // reached, one request more than there are full pages; otherwise as many
  // pages as the cap fills, rounded up.
  lemma CostFormula(k: nat, n: nat, cap: Option<int>)
    requires SeesThrough(k, n, cap)
    ensures var page := PageLimit(cap);
            k == if cap.Some? && n >= Stop(cap.value) then (Stop(cap.value) + page - 1) / page else n / page + 1
    ensures cap.None? ==> k == n / 500 + 1
    ensures cap.Some? && 0 < cap.value <= n ==> k == if cap.value <= 500 then 1 else (cap.value + 499) / 500
  {
    var page := PageLimit(cap);
    SpanIsProduct(page, k);
    SpanIsProduct(page, k - 1);
    if cap.Some? && n >= Stop(cap.value) {
      Quotient(Stop(cap.value) + page - 1, page, k);
    } else {
      Quotient(n, page, k - 1);
    }
  }

  lemma Quotient(a: int, d: int, q: int)
    requires d > 0 && d * q <= a < d * q + d
    ensures a / d == q
  {
    var p := a / d;
    assert d * p <= a < d * p + d;
    if p < q {
      Scaled(d, p + 1, q);
    } else if q < p {
      Scaled(d, q + 1, p);
    }
  }

  lemma Scaled(d: int, x: int, y: int)
    requires d > 0 && x <= y
    ensures d * x <= d * y
  {
  }

  // The documented promise that a limit caps the result: it holds exactly for
  // the limits of one or more, and for a zero limit that meets no match.
  lemma CapIsKeptIff(log: seq<A.Entry>, f: A.Criteria, cap: int)
    ensures |FirstMatches(log, f, Some(cap))| <= cap <==> cap >= 1 || (cap == 0 && A.Matching(log, f) == [])
  {
  }

  // With one entry in the log, a limit of zero still brings it.
  lemma ZeroLimitBringsOne(e: A.Entry, f: A.Criteria)
    requires A.Accepts(f, e)
    ensures FirstMatches([e], f, Some(0)) == [e]
  {
    assert [e] == [] + [e];
    FilterSnoc([], e, A.Accepting(f));
  }
}
