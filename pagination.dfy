/**
 * The entry pagination engine of `get_entries`: pages of a journal's entries
 * are requested backwards in time from a cursor, each entry is checked against
 * the caller's limit, and the walk goes on while the server reports entries
 * remaining.
 *
 * The server is a finite script of responses: the n-th request made receives
 * the n-th response. A request made after the script is used up is recorded
 * and ends the walk as `Unanswered`; this is where the library itself would
 * go on requesting for as long as the server answers.
 */
module Pagination {
  import opened Wrappers
  import opened Domain

  /** The page size asked of the server. */
  const FetchSize: int := 200

  /** The caller's stopping condition: none, a count of entries, or an epoch-ms timestamp. */
  datatype Limit = NoLimit | Count(n: int) | Before(t: int)

  /** One reply to a page request: its status, its entries and the optional `numEntriesRemaining`. */
  datatype Response = Response(status: int, entries: seq<Entry>, numEntriesRemaining: Option<int>)

  /** The query of one page request for journal `journalId`. */
  datatype PageRequest = PageRequest(journalId: int, clientId: string, fetchSize: int, last: int)

  /** How a walk ended. */
  datatype End =
    | Exhausted        // the server reported no entries remaining
    | LimitReached     // the limit check stopped the walk
    | Raised(error: Error)
    | Unanswered       // a request was made beyond the end of the scripted replies

  /** The entries yielded, the requests made, in order, and how the walk ended. */
  datatype Outcome = Outcome(entries: seq<Entry>, requests: seq<PageRequest>, end: End)

  /** `raise_for_status` raises for every status from 400 up. */
  predicate RaisesForStatus(status: int)
  {
    status >= 400
  }

  /** `numEntriesRemaining`, a missing key read as 0. */
  function Remaining(r: Response): int
  {
    match r.numEntriesRemaining
    case Some(n) => n
    case None => 0
  }

  /** The limit check for entry `e` when `k` checks have already been made. */
  predicate Stops(limit: Limit, k: nat, e: Entry)
  {
    match limit
    case NoLimit => false
    case Count(n) => n <= k
    case Before(t) => t > e.timestamp
  }

  /** The index of the first entry of `es` at which the limit check stops, or |es| if none does. */
  function FirstStop(limit: Limit, es: seq<Entry>, k: nat): (j: nat)
    ensures j <= |es|
    ensures forall x :: 0 <= x < j ==> !Stops(limit, k + x, es[x])
    ensures j < |es| ==> Stops(limit, k + j, es[j])
  {
    if es == [] then 0
    else if Stops(limit, k, es[0]) then 0
    else 1 + FirstStop(limit, es[1..], k + 1)
  }

  /** The cursor after a page: the timestamp of its last entry; an empty page keeps the cursor. */
  function NextCursor(es: seq<Entry>, cursor: int): int
  {
    if es == [] then cursor else es[|es| - 1].timestamp
  }

  function Request(journalId: int, cursor: int): PageRequest
  {
    PageRequest(journalId, IosClientId, FetchSize, cursor)
  }

  /** `rs` appended after the entries `ys` and the requests `qs` already produced. */
  function After(ys: seq<Entry>, qs: seq<PageRequest>, o: Outcome): Outcome
  {
    Outcome(ys + o.entries, qs + o.requests, o.end)
  }

  lemma AfterAfter(ys: seq<Entry>, qs: seq<PageRequest>, ys': seq<Entry>, qs': seq<PageRequest>, o: Outcome)
    ensures After(ys, qs, After(ys', qs', o)) == After(ys + ys', qs + qs', o)
  {
    assert ys + (ys' + o.entries) == (ys + ys') + o.entries;
    assert qs + (qs' + o.requests) == (qs + qs') + o.requests;
  }

  /** What one reply does to the walk: end it with the entries yielded, or go on from a new cursor. */
  datatype Step = Final(entries: seq<Entry>, end: End) | Continue(entries: seq<Entry>, cursor: int)

  /**
   * One pass of the loop: the reply `r` to the request made with `cursor`,
   * after `k` limit checks; `bound` says whether an entry has been processed yet.
   */
  function PageStep(limit: Limit, r: Response, k: nat, cursor: int, bound: bool): (step: Step)
    ensures step.entries <= r.entries
    ensures forall x :: 0 <= x < |step.entries| ==> !Stops(limit, k + x, step.entries[x])
    ensures step.Continue? ==> step.entries == r.entries && !RaisesForStatus(r.status) && Remaining(r) > 0
  {
    if RaisesForStatus(r.status) then Final([], Raised(HttpError(r.status)))
    else
      var j := FirstStop(limit, r.entries, k);
      if j < |r.entries| then Final(r.entries[..j], LimitReached)
      else if r.entries == [] && !bound then Final([], Raised(EntryUnbound))
      else if Remaining(r) <= 0 then Final(r.entries, Exhausted)
      else Continue(r.entries, NextCursor(r.entries, cursor))
  }

  /** The walk from the state reached after `k` limit checks, with the cursor `cursor`. */
  function Run(limit: Limit, journalId: int, responses: seq<Response>, k: nat, cursor: int, bound: bool): (o: Outcome)
  {
    var req := Request(journalId, cursor);
    if responses == [] then Outcome([], [req], Unanswered)
    else match PageStep(limit, responses[0], k, cursor, bound)
      case Final(es, end) => Outcome(es, [req], end)
      case Continue(es, next) => After(es, [req], Run(limit, journalId, responses[1..], k + |es|, next, true))
  }

  /** How many requests a walk makes, and that only a request beyond the script goes unanswered. */
  lemma {:induction false} RunBounds(limit: Limit, journalId: int, responses: seq<Response>, k: nat, cursor: int, bound: bool)
    ensures var o := Run(limit, journalId, responses, k, cursor, bound);
      && 1 <= |o.requests| <= |responses| + 1
      && (o.end == Unanswered <==> |o.requests| == |responses| + 1)
      && Processed(o) <= |responses|
      && o.requests[0] == Request(journalId, cursor)
  {
    if responses != [] {
      var step := PageStep(limit, responses[0], k, cursor, bound);
      if step.Continue? {
        RunBounds(limit, journalId, responses[1..], k + |step.entries|, step.cursor, true);
      }
    }
  }

  /** The whole walk of `get_entries` from the starting cursor `start`. */
  function Walk(limit: Limit, journalId: int, responses: seq<Response>, start: int): Outcome
  {
    Run(limit, journalId, responses, 0, start, false)
  }

  /** The entries of the first `n` responses, in server order. */
  function Fetched(rs: seq<Response>, n: nat): seq<Entry>
  {
    if n == 0 || rs == [] then [] else rs[0].entries + Fetched(rs[1..], n - 1)
  }

  /** How many responses had their entries processed: all answered ones but a failed status. */
  function Processed(o: Outcome): nat
  {
    var n := |o.requests|;
    if n > 0 && (o.end.Unanswered? || (o.end.Raised? && o.end.error.HttpError?)) then n - 1 else n
  }

  lemma RunUnfold(limit: Limit, journalId: int, responses: seq<Response>, k: nat, cursor: int, bound: bool)
    requires responses != [] && PageStep(limit, responses[0], k, cursor, bound).Continue?
    ensures var step := PageStep(limit, responses[0], k, cursor, bound);
      Run(limit, journalId, responses, k, cursor, bound)
        == After(step.entries, [Request(journalId, cursor)],
                 Run(limit, journalId, responses[1..], k + |step.entries|, step.cursor, true))
  {
  }

  lemma RunEnds(limit: Limit, journalId: int, responses: seq<Response>, k: nat, cursor: int, bound: bool)
    requires responses != [] && PageStep(limit, responses[0], k, cursor, bound).Final?
    ensures var step := PageStep(limit, responses[0], k, cursor, bound);
      Run(limit, journalId, responses, k, cursor, bound) == Outcome(step.entries, [Request(journalId, cursor)], step.end)
  {
  }

  /** Resuming a walk after a page that continues it, with the entries and requests so far. */
  lemma RunResume(limit: Limit, journalId: int, responses: seq<Response>, k: nat, cursor: int, bound: bool,
                  ys: seq<Entry>, qs: seq<PageRequest>)
    requires responses != [] && PageStep(limit, responses[0], k, cursor, bound).Continue?
    ensures var step := PageStep(limit, responses[0], k, cursor, bound);
      After(ys, qs, Run(limit, journalId, responses, k, cursor, bound))
        == After(ys + step.entries, qs + [Request(journalId, cursor)],
                 Run(limit, journalId, responses[1..], k + |step.entries|, step.cursor, true))
  {
    var step := PageStep(limit, responses[0], k, cursor, bound);
    RunUnfold(limit, journalId, responses, k, cursor, bound);
    AfterAfter(ys, qs, step.entries, [Request(journalId, cursor)],
               Run(limit, journalId, responses[1..], k + |step.entries|, step.cursor, true));
  }

  /**
   * One page of the walk from the `i`-th response, when `total` is the walk
   * continued after the entries `ys` and the requests `qs` produced so far.
   */
  lemma RunTurn(limit: Limit, journalId: int, responses: seq<Response>, i: nat, cursor: int, bound: bool,
                ys: seq<Entry>, qs: seq<PageRequest>, total: Outcome, step: Step)
    requires i < |responses|
    requires total == After(ys, qs, Run(limit, journalId, responses[i..], |ys|, cursor, bound))
    requires step == PageStep(limit, responses[i], |ys|, cursor, bound)
    ensures step.Final? ==> total == Outcome(ys + step.entries, qs + [Request(journalId, cursor)], step.end)
    ensures step.Continue? ==> total == After(ys + step.entries, qs + [Request(journalId, cursor)],
                                              Run(limit, journalId, responses[i + 1..], |ys + step.entries|, step.cursor, true))
  {
    var rs := responses[i..];
    assert rs[0] == responses[i] && rs[1..] == responses[i + 1..];
    if step.Continue? {
      RunResume(limit, journalId, rs, |ys|, cursor, bound, ys, qs);
    } else {
      RunEnds(limit, journalId, rs, |ys|, cursor, bound);
    }
  }

  /**
   * The four ways a page can go, each tied to the reply that causes it, and
   * where a page that does not end the walk moves the cursor.
   */
  lemma PageStepCases(limit: Limit, r: Response, k: nat, cursor: int, bound: bool)
    ensures var step := PageStep(limit, r, k, cursor, bound);
      var scanned := !RaisesForStatus(r.status) && FirstStop(limit, r.entries, k) == |r.entries|;
      && (step == Final([], Raised(HttpError(r.status))) <==> RaisesForStatus(r.status))
      && (step.Final? && step.end == LimitReached <==>
            !RaisesForStatus(r.status) && FirstStop(limit, r.entries, k) < |r.entries|)
      && (step == Final([], Raised(EntryUnbound)) <==> !RaisesForStatus(r.status) && r.entries == [] && !bound)
      && (step == Final(r.entries, Exhausted) <==> scanned && (r.entries != [] || bound) && Remaining(r) <= 0)
      && (step.Continue? <==> scanned && (r.entries != [] || bound) && Remaining(r) > 0)
      && (step.Final? ==> step.end in {LimitReached, Exhausted, Raised(EntryUnbound), Raised(HttpError(r.status))})
      && (step.Final? && step.end == LimitReached ==>
            |step.entries| < |r.entries| && Stops(limit, k + |step.entries|, r.entries[|step.entries|]))
      && (step.Continue? ==> step.cursor == NextCursor(r.entries, cursor))
  {
  }

  /** An empty page after the first reuses the last entry seen, so the next request repeats the cursor. */
  lemma EmptyLaterPageRepeats(limit: Limit, r: Response, k: nat, cursor: int)
    requires !RaisesForStatus(r.status) && r.entries == [] && Remaining(r) > 0
    ensures PageStep(limit, r, k, cursor, true) == Continue([], cursor)
  {
  }

  /** A walk can only fail on a failed status or on an empty first page. */
  lemma {:induction false} RunRaises(limit: Limit, journalId: int, responses: seq<Response>, k: nat, cursor: int, bound: bool)
    ensures var o := Run(limit, journalId, responses, k, cursor, bound);
      o.end.Raised? ==> o.end.error.HttpError? || o.end.error == EntryUnbound
  {
    if responses != [] {
      var step := PageStep(limit, responses[0], k, cursor, bound);
      PageStepCases(limit, responses[0], k, cursor, bound);
      if step.Continue? {
        RunUnfold(limit, journalId, responses, k, cursor, bound);
        RunRaises(limit, journalId, responses[1..], k + |step.entries|, step.cursor, true);
      } else {
        RunEnds(limit, journalId, responses, k, cursor, bound);
      }
    }
  }

  /** Every request asks for a page of the same journal with the fixed client id and page size. */
  lemma {:induction false} RunRequestsJournal(limit: Limit, journalId: int, responses: seq<Response>, k: nat, cursor: int, bound: bool)
    ensures var o := Run(limit, journalId, responses, k, cursor, bound);
      forall q :: q in o.requests ==> q == Request(journalId, q.last)
  {
    if responses != [] {
      var step := PageStep(limit, responses[0], k, cursor, bound);
      if step.Continue? {
        RunUnfold(limit, journalId, responses, k, cursor, bound);
        RunRequestsJournal(limit, journalId, responses[1..], k + |step.entries|, step.cursor, true);
      } else {
        RunEnds(limit, journalId, responses, k, cursor, bound);
      }
    }
  }

  /**
   * Each request but the last was followed by a successful reply that
   * reported entries remaining, and the next request moved the cursor to the
   * last entry of that reply.
   */
  predicate ChainedRequests(responses: seq<Response>, requests: seq<PageRequest>)
  {
    && |requests| <= |responses| + 1
    && forall j :: 0 <= j < |requests| - 1 ==>
         && !RaisesForStatus(responses[j].status)
         && Remaining(responses[j]) > 0
         && requests[j + 1].last == NextCursor(responses[j].entries, requests[j].last)
  }

  lemma ChainedCons(responses: seq<Response>, q: PageRequest, qs: seq<PageRequest>)
    requires responses != [] && qs != []
    requires !RaisesForStatus(responses[0].status) && Remaining(responses[0]) > 0
    requires qs[0].last == NextCursor(responses[0].entries, q.last)
    requires ChainedRequests(responses[1..], qs)
    ensures ChainedRequests(responses, [q] + qs)
  {
    var o := [q] + qs;
    forall j | 0 <= j < |o| - 1
      ensures !RaisesForStatus(responses[j].status) && Remaining(responses[j]) > 0
      ensures o[j + 1].last == NextCursor(responses[j].entries, o[j].last)
    {
      if j > 0 {
        assert responses[j] == responses[1..][j - 1];
        assert o[j] == qs[j - 1] && o[j + 1] == qs[j];
      }
    }
  }

  /** A further page is requested only after a successful page that reported entries remaining. */
  lemma {:induction false} RunRequestsContinue(limit: Limit, journalId: int, responses: seq<Response>, k: nat, cursor: int, bound: bool)
    ensures ChainedRequests(responses, Run(limit, journalId, responses, k, cursor, bound).requests)
  {
    if responses != [] {
      var step := PageStep(limit, responses[0], k, cursor, bound);
      if step.Continue? {
        var k', cursor' := k + |step.entries|, step.cursor;
        var rest := Run(limit, journalId, responses[1..], k', cursor', true);
        RunUnfold(limit, journalId, responses, k, cursor, bound);
        PageStepCases(limit, responses[0], k, cursor, bound);
        RunRequestsContinue(limit, journalId, responses[1..], k', cursor', true);
        RunBounds(limit, journalId, responses[1..], k', cursor', true);
        ChainedCons(responses, Request(journalId, cursor), rest.requests);
      } else {
        RunEnds(limit, journalId, responses, k, cursor, bound);
      }
    }
  }

  /** A walk ends as exhausted only when its last answered page reported nothing remaining. */
  lemma {:induction false} RunExhausted(limit: Limit, journalId: int, responses: seq<Response>, k: nat, cursor: int, bound: bool)
    ensures var o := Run(limit, journalId, responses, k, cursor, bound);
      o.end == Exhausted ==> |o.requests| <= |responses| && Remaining(responses[|o.requests| - 1]) <= 0
  {
    if responses != [] {
      var step := PageStep(limit, responses[0], k, cursor, bound);
      if step.Continue? {
        var k', cursor' := k + |step.entries|, step.cursor;
        var rest := Run(limit, journalId, responses[1..], k', cursor', true);
        RunUnfold(limit, journalId, responses, k, cursor, bound);
        RunExhausted(limit, journalId, responses[1..], k', cursor', true);
        RunBounds(limit, journalId, responses[1..], k', cursor', true);
        if rest.end == Exhausted {
          assert responses[|rest.requests|] == responses[1..][|rest.requests| - 1];
        }
      } else {
        RunEnds(limit, journalId, responses, k, cursor, bound);
        PageStepCases(limit, responses[0], k, cursor, bound);
      }
    }
  }

  lemma PrefixAppend(a: seq<Entry>, b: seq<Entry>, c: seq<Entry>)
    requires b <= c
    ensures a + b <= a + c
  {
    assert (a + c)[..|a + b|] == a + b;
  }

  /** The entries yielded are a prefix of those fetched, and all of them unless the limit stopped the walk. */
  predicate YieldsPrefix(responses: seq<Response>, o: Outcome)
  {
    var f := Fetched(responses, Processed(o));
    && o.entries <= f
    && (o.end != LimitReached ==> o.entries == f)
  }

  lemma PrefixCons(responses: seq<Response>, q: PageRequest, rest: Outcome)
    requires responses != [] && rest.requests != []
    requires YieldsPrefix(responses[1..], rest)
    ensures YieldsPrefix(responses, After(responses[0].entries, [q], rest))
  {
    var o := After(responses[0].entries, [q], rest);
    assert Processed(o) == Processed(rest) + 1;
    assert Fetched(responses, Processed(o)) == responses[0].entries + Fetched(responses[1..], Processed(rest));
    PrefixAppend(responses[0].entries, rest.entries, Fetched(responses[1..], Processed(rest)));
  }

  /** The walk yields a prefix of the processed pages' entries, all of them unless the limit stopped it. */
  lemma {:induction false} RunPrefix(limit: Limit, journalId: int, responses: seq<Response>, k: nat, cursor: int, bound: bool)
    ensures YieldsPrefix(responses, Run(limit, journalId, responses, k, cursor, bound))
  {
    if responses != [] {
      var step := PageStep(limit, responses[0], k, cursor, bound);
      if step.Continue? {
        var k', cursor' := k + |step.entries|, step.cursor;
        RunUnfold(limit, journalId, responses, k, cursor, bound);
        RunPrefix(limit, journalId, responses[1..], k', cursor', true);
        RunBounds(limit, journalId, responses[1..], k', cursor', true);
        PrefixCons(responses, Request(journalId, cursor), Run(limit, journalId, responses[1..], k', cursor', true));
      } else {
        RunEnds(limit, journalId, responses, k, cursor, bound);
        PageStepCases(limit, responses[0], k, cursor, bound);
        assert Fetched(responses, 1) == responses[0].entries + [];
      }
    }
  }

  /** No entry of `ys ++ zs` fails the check when those of `ys` and then of `zs` pass it. */
  lemma PassesAppend(limit: Limit, k: nat, ys: seq<Entry>, zs: seq<Entry>)
    requires forall x :: 0 <= x < |ys| ==> !Stops(limit, k + x, ys[x])
    requires forall x :: 0 <= x < |zs| ==> !Stops(limit, k + |ys| + x, zs[x])
    ensures forall x :: 0 <= x < |ys + zs| ==> !Stops(limit, k + x, (ys + zs)[x])
  {
    forall x | |ys| <= x < |ys + zs|
      ensures !Stops(limit, k + x, (ys + zs)[x])
    {
      assert (ys + zs)[x] == zs[x - |ys|];
      assert k + x == k + |ys| + (x - |ys|);
    }
  }

  /** No yielded entry is one the limit check stops at. */
  lemma {:induction false} RunPassesChecks(limit: Limit, journalId: int, responses: seq<Response>, k: nat, cursor: int, bound: bool)
    ensures var o := Run(limit, journalId, responses, k, cursor, bound);
      forall x :: 0 <= x < |o.entries| ==> !Stops(limit, k + x, o.entries[x])
  {
    if responses != [] {
      var step := PageStep(limit, responses[0], k, cursor, bound);
      if step.Continue? {
        var k', cursor' := k + |step.entries|, step.cursor;
        RunUnfold(limit, journalId, responses, k, cursor, bound);
        RunPassesChecks(limit, journalId, responses[1..], k', cursor', true);
        PassesAppend(limit, k, step.entries, Run(limit, journalId, responses[1..], k', cursor', true).entries);
      } else {
        RunEnds(limit, journalId, responses, k, cursor, bound);
      }
    }
  }

  /** When the limit stops a walk, the entry it stops at is the next one fetched, in the last page processed. */
  predicate StopsInLastPage(limit: Limit, responses: seq<Response>, k: nat, o: Outcome)
  {
    var f := Fetched(responses, Processed(o));
    o.end == LimitReached ==>
      && 0 < Processed(o)
      && |Fetched(responses, Processed(o) - 1)| <= |o.entries| < |f|
      && Stops(limit, k + |o.entries|, f[|o.entries|])
  }

  lemma StopsCons(limit: Limit, responses: seq<Response>, k: nat, q: PageRequest, rest: Outcome)
    requires responses != [] && rest.requests != []
    requires StopsInLastPage(limit, responses[1..], k + |responses[0].entries|, rest)
    ensures StopsInLastPage(limit, responses, k, After(responses[0].entries, [q], rest))
  {
    var o := After(responses[0].entries, [q], rest);
    var es := responses[0].entries;
    if o.end == LimitReached {
      var p := Processed(rest);
      assert Processed(o) == p + 1;
      assert Fetched(responses, p + 1) == es + Fetched(responses[1..], p);
      assert Fetched(responses, p) == es + Fetched(responses[1..], p - 1);
      assert Fetched(responses, p + 1)[|o.entries|] == Fetched(responses[1..], p)[|rest.entries|];
    }
  }

  /** When the limit stops the walk, the stopping entry is the next one and lies in the last page requested. */
  lemma {:induction false} RunStopsInLastPage(limit: Limit, journalId: int, responses: seq<Response>, k: nat, cursor: int, bound: bool)
    ensures StopsInLastPage(limit, responses, k, Run(limit, journalId, responses, k, cursor, bound))
  {
    if responses != [] {
      var step := PageStep(limit, responses[0], k, cursor, bound);
      if step.Continue? {
        var k', cursor' := k + |step.entries|, step.cursor;
        RunUnfold(limit, journalId, responses, k, cursor, bound);
        RunStopsInLastPage(limit, journalId, responses[1..], k', cursor', true);
        RunBounds(limit, journalId, responses[1..], k', cursor', true);
        StopsCons(limit, responses, k, Request(journalId, cursor), Run(limit, journalId, responses[1..], k', cursor', true));
      } else {
        RunEnds(limit, journalId, responses, k, cursor, bound);
        PageStepCases(limit, responses[0], k, cursor, bound);
        assert Fetched(responses, 1) == responses[0].entries + [];
      }
    }
  }

  function Min(a: int, b: int): int { if a <= b then a else b }

  function Max(a: int, b: int): int { if a >= b then a else b }

  // ---------------------------------------------------------------------------
  // The three kinds of limit, from the start of a walk

  /** With a count limit n, exactly min(n, entries processed) entries are yielded. */
  lemma CountLimitYieldsMin(n: int, journalId: int, responses: seq<Response>, start: int)
    ensures var o := Walk(Count(n), journalId, responses, start);
      var available := |Fetched(responses, Processed(o))|;
      && |o.entries| == Min(Max(n, 0), available)
      && (o.end == LimitReached ==> |o.entries| == Max(n, 0))
  {
    var o := Walk(Count(n), journalId, responses, start);
    RunPrefix(Count(n), journalId, responses, 0, start, false);
    RunPassesChecks(Count(n), journalId, responses, 0, start, false);
    RunStopsInLastPage(Count(n), journalId, responses, 0, start, false);
    assert o == Run(Count(n), journalId, responses, 0, start, false);
    if |o.entries| > 0 {
      assert !Stops(Count(n), 0 + (|o.entries| - 1), o.entries[|o.entries| - 1]);
    }
  }

  /** With a timestamp limit t, every yielded entry is at or after t, and the walk stops at the first entry before t. */
  lemma BeforeLimitStopsAtFirstOlder(t: int, journalId: int, responses: seq<Response>, start: int)
    ensures var o := Walk(Before(t), journalId, responses, start);
      var f := Fetched(responses, Processed(o));
      && o.entries <= f
      && (forall x :: 0 <= x < |o.entries| ==> o.entries[x].timestamp >= t)
      && (o.end == LimitReached ==> |o.entries| < |f| && f[|o.entries|].timestamp < t)
      && (o.end != LimitReached ==> o.entries == f)
  {
    var o := Walk(Before(t), journalId, responses, start);
    RunPrefix(Before(t), journalId, responses, 0, start, false);
    RunPassesChecks(Before(t), journalId, responses, 0, start, false);
    RunStopsInLastPage(Before(t), journalId, responses, 0, start, false);
    assert o == Run(Before(t), journalId, responses, 0, start, false);
    forall x | 0 <= x < |o.entries|
      ensures o.entries[x].timestamp >= t
    {
      assert !Stops(Before(t), 0 + x, o.entries[x]);
    }
  }

  /** Without a limit the walk never stops early: every entry of every processed page is yielded. */
  lemma NoLimitYieldsAll(journalId: int, responses: seq<Response>, start: int)
    ensures var o := Walk(NoLimit, journalId, responses, start);
      o.end != LimitReached && o.entries == Fetched(responses, Processed(o))
  {
    var o := Walk(NoLimit, journalId, responses, start);
    RunPrefix(NoLimit, journalId, responses, 0, start, false);
    RunStopsInLastPage(NoLimit, journalId, responses, 0, start, false);
  }

  /**
   * The first request is made from the starting cursor; every request asks
   * for the same journal; a further request follows only a successful page
   * reporting entries remaining, from that page's last entry; and only a
   * request beyond the scripted replies goes unanswered.
   */
  lemma WalkRequests(limit: Limit, journalId: int, responses: seq<Response>, start: int)
    ensures var o := Walk(limit, journalId, responses, start);
      && o.requests != [] && o.requests[0] == Request(journalId, start)
      && (forall q :: q in o.requests ==> q == Request(journalId, q.last))
      && ChainedRequests(responses, o.requests)
      && (o.end == Unanswered <==> |o.requests| == |responses| + 1)
      && (o.end == Exhausted ==> |o.requests| <= |responses| && Remaining(responses[|o.requests| - 1]) <= 0)
      && (o.end.Raised? ==> o.end.error.HttpError? || o.end.error == EntryUnbound)
  {
    RunRaises(limit, journalId, responses, 0, start, false);
    RunBounds(limit, journalId, responses, 0, start, false);
    RunRequestsJournal(limit, journalId, responses, 0, start, false);
    RunRequestsContinue(limit, journalId, responses, 0, start, false);
    RunExhausted(limit, journalId, responses, 0, start, false);
  }

  /**
   * Under a count limit met exactly at the end of a page that reports entries
   * remaining, one more page is requested, and the walk stops at its first entry.
   */
  lemma CountLimitRequestsOneMorePage(journalId: int, start: int, e1: Entry, e2: Entry, rest: seq<Response>)
    ensures var responses := [Response(200, [e1], Some(1)), Response(200, [e2], Some(0))] + rest;
      Walk(Count(1), journalId, responses, start)
        == Outcome([e1], [Request(journalId, start), Request(journalId, e1.timestamp)], LimitReached)
  {
    var responses := [Response(200, [e1], Some(1)), Response(200, [e2], Some(0))] + rest;
    assert FirstStop(Count(1), [e1], 0) == 1 by {
      assert [e1][1..] == [];
    }
    assert PageStep(Count(1), responses[0], 0, start, false) == Continue([e1], e1.timestamp);
    RunUnfold(Count(1), journalId, responses, 0, start, false);
    assert FirstStop(Count(1), [e2], 1) == 0;
    assert PageStep(Count(1), responses[1..][0], 1, e1.timestamp, true) == Final([], LimitReached);
    RunEnds(Count(1), journalId, responses[1..], 1, e1.timestamp, true);
  }

  /** An empty first page fails when the cursor reads an entry that was never assigned. */
  lemma EmptyFirstPageRaises(limit: Limit, journalId: int, responses: seq<Response>, start: int)
    requires responses != [] && !RaisesForStatus(responses[0].status) && responses[0].entries == []
    ensures Walk(limit, journalId, responses, start) == Outcome([], [Request(journalId, start)], Raised(EntryUnbound))
  {
  }
}
