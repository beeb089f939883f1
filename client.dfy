/**
 * The API client: its session state (an optional bearer token and the
 * authenticated user), login, the authorization header attached to every
 * request, the children of the followed journals, and the entry walk.
 *
 * Network replies are parameters: each operation is given the response the
 * server sent to the request it makes.
 */
module Client {
  import opened Wrappers
  import opened Domain
  import opened Pagination

  const ApiBaseUrl: string := "https://tinybeans.com/api/1/"

  /** The session state of a client: no token, or a token (with the user it belongs to). */
  datatype Session = Session(accessToken: Option<string>, user: Option<User>)

  /** A request as handed to the transport; `verb` is the HTTP method. */
  datatype ApiRequest = ApiRequest(
    verb: string,
    url: string,
    query: map<string, string>,
    body: map<string, string>,
    headers: map<string, string>)

  /** The reply to `authenticate`; a missing key of the JSON body is `None`. */
  datatype LoginReply = LoginReply(status: int, accessToken: Option<string>, user: Option<User>)

  /** What one call of `login` does: the next session, its result and the request it sent, if any. */
  datatype LoginStep = LoginStep(next: Session, result: Result<bool, Error>, sent: Option<ApiRequest>)

  /** `logged_in`: a token is held and it is not empty. */
  predicate LoggedIn(s: Session)
  {
    Truthy(s.accessToken)
  }

  /** The headers `_api` attaches: the authorization header exactly when a non-empty token is held. */
  function Headers(s: Session): (h: map<string, string>)
    ensures "authorization" in h <==> LoggedIn(s)
    ensures "authorization" in h ==> s.accessToken == Some(h["authorization"])
    ensures h.Keys <= {"authorization"}
  {
    if LoggedIn(s) then map["authorization" := s.accessToken.value] else map[]
  }

  /** `_api`: the request for a path relative to the base url, carrying the session's headers. */
  function Api(s: Session, verb: string, path: string, query: map<string, string>, body: map<string, string>): (r: ApiRequest)
    ensures r.url == ApiBaseUrl + path && r.verb == verb && r.query == query && r.body == body
    ensures "authorization" in r.headers <==> LoggedIn(s)
  {
    ApiRequest(verb, ApiBaseUrl + path, query, body, Headers(s))
  }

  function AuthenticateRequest(s: Session, username: string, password: string): ApiRequest
  {
    Api(s, "POST", "authenticate", map[],
        map["username" := username, "password" := password, "clientId" := IosClientId])
  }

  /**
   * `login`: nothing is sent when a usable token is held; otherwise the
   * credentials are posted, a failed status leaves the session as it was,
   * and a successful reply stores its token and user.
   */
  function LoginSpec(s: Session, username: string, password: string, reply: LoginReply): (step: LoginStep)
    ensures LoggedIn(s) ==> step == LoginStep(s, Ok(true), None)
    ensures !LoggedIn(s) ==> step.sent.Some?
    ensures step.sent.Some? ==>
      && step.sent.value.verb == "POST"
      && step.sent.value.url == ApiBaseUrl + "authenticate"
      && step.sent.value.headers == map[]
      && step.sent.value.body == map["username" := username, "password" := password, "clientId" := IosClientId]
    ensures !LoggedIn(s) && RaisesForStatus(reply.status) ==> step.next == s && step.result == Err(HttpError(reply.status))
    ensures !LoggedIn(s) && !RaisesForStatus(reply.status) && reply.accessToken.Some? && reply.user.Some? ==>
      step.next == Session(reply.accessToken, reply.user) && step.result == Ok(Truthy(reply.accessToken))
    ensures !LoggedIn(s) && !RaisesForStatus(reply.status) && reply.accessToken.None? ==>
      step.next == s && step.result == Err(MissingKey("accessToken"))
    ensures !LoggedIn(s) && !RaisesForStatus(reply.status) && reply.accessToken.Some? && reply.user.None? ==>
      step.next == s.(accessToken := reply.accessToken) && step.result == Err(MissingKey("user"))
    ensures step.result.Ok? ==> (step.result.value <==> LoggedIn(step.next))
    ensures step.result.Ok? && !LoggedIn(s) ==> step.next == Session(reply.accessToken, reply.user)
    ensures step.next.accessToken != s.accessToken ==>
      !LoggedIn(s) && !RaisesForStatus(reply.status) && step.next.accessToken == reply.accessToken
  {
    if LoggedIn(s) then LoginStep(s, Ok(true), None)
    else
      var sent := Some(AuthenticateRequest(s, username, password));
      if RaisesForStatus(reply.status) then LoginStep(s, Err(HttpError(reply.status)), sent)
      else if reply.accessToken.None? then LoginStep(s, Err(MissingKey("accessToken")), sent)
      else
        var withToken := s.(accessToken := reply.accessToken);
        if reply.user.None? then LoginStep(withToken, Err(MissingKey("user")), sent)
        else
          var next := Session(reply.accessToken, reply.user);
          LoginStep(next, Ok(LoggedIn(next)), sent)
  }

  /** A login that reported success makes every later login a no-op that sends nothing. */
  lemma LoginIdempotent(s: Session, u1: string, p1: string, r1: LoginReply, u2: string, p2: string, r2: LoginReply)
    requires LoginSpec(s, u1, p1, r1).result == Ok(true)
    ensures var s1 := LoginSpec(s, u1, p1, r1).next;
      LoginSpec(s1, u2, p2, r2) == LoginStep(s1, Ok(true), None)
  {
  }

  /** After a successful login with a non-empty token, requests carry that token. */
  lemma LoginAuthorizes(s: Session, username: string, password: string, reply: LoginReply)
    requires LoginSpec(s, username, password, reply).result == Ok(true)
    requires !LoggedIn(s)
    ensures Headers(LoginSpec(s, username, password, reply).next) == map["authorization" := reply.accessToken.value]
  {
  }

  /** All the children of the given followings' journals, journal after journal. */
  function Flatten(followings: seq<Following>): seq<Child>
  {
    if followings == [] then [] else followings[0].journal.children + Flatten(followings[1..])
  }

  lemma {:induction false} FlattenSnoc(followings: seq<Following>, f: Following)
    ensures Flatten(followings + [f]) == Flatten(followings) + f.journal.children
  {
    if followings == [] {
      assert [f][1..] == [];
    } else {
      assert (followings + [f])[1..] == followings[1..] + [f];
      FlattenSnoc(followings[1..], f);
    }
  }

  /** A child is in the flattened list exactly when it is a child of one of the journals. */
  lemma {:induction false} FlattenContains(followings: seq<Following>, c: Child)
    ensures c in Flatten(followings) <==> exists i :: 0 <= i < |followings| && c in followings[i].journal.children
  {
    if followings != [] {
      FlattenContains(followings[1..], c);
      if c in Flatten(followings[1..]) {
        var i :| 1 <= i + 1 < |followings| && c in followings[1..][i].journal.children;
        assert c in followings[i + 1].journal.children;
      }
      if exists i :: 0 <= i < |followings| && c in followings[i].journal.children {
        var i :| 0 <= i < |followings| && c in followings[i].journal.children;
        if i > 0 {
          assert followings[1..][i - 1] == followings[i];
        }
      }
    }
  }

  /** When every journal is linked, every child of the flattened list can reach its journal. */
  lemma ChildrenHaveJournals(followings: seq<Following>)
    requires forall i :: 0 <= i < |followings| ==> followings[i].journal.Linked()
    ensures forall c :: c in Flatten(followings) ==> c.GetJournal() == Ok(c.journal) && c.journal != null
  {
    forall c | c in Flatten(followings)
      ensures c.journal != null
    {
      FlattenContains(followings, c);
      var i :| 0 <= i < |followings| && c in followings[i].journal.children;
      assert followings[i].journal.Linked();
    }
  }

  class PyTinybeans {
    var accessToken: Option<string>
    var user: Option<User>

    constructor ()
      ensures State() == Session(None, None)
    {
      accessToken := None;
      user := None;
    }

    function State(): Session
      reads this
    {
      Session(accessToken, user)
    }

    /** `login`, given the reply the server sends to the authenticate request. */
    method Login(username: string, password: string, reply: LoginReply) returns (r: Result<bool, Error>, sent: Option<ApiRequest>)
      modifies this
      ensures var step := LoginSpec(old(State()), username, password, reply);
        State() == step.next && r == step.result && sent == step.sent
    {
      if LoggedIn(State()) {
        return Ok(true), None;
      }
      sent := Some(AuthenticateRequest(State(), username, password));
      if RaisesForStatus(reply.status) {
        return Err(HttpError(reply.status)), sent;
      }
      if reply.accessToken.None? {
        return Err(MissingKey("accessToken")), sent;
      }
      accessToken := reply.accessToken;
      if reply.user.None? {
        return Err(MissingKey("user")), sent;
      }
      user := reply.user;
      r := Ok(LoggedIn(State()));
    }

    /** `children`: the children of every following's journal, in order, given the followings received. */
    method Children(followings: seq<Following>) returns (children: seq<Child>)
      ensures children == Flatten(followings)
    {
      children := [];
      for i := 0 to |followings|
        invariant children == Flatten(followings[..i])
      {
        FlattenSnoc(followings[..i], followings[i]);
        assert followings[..i + 1] == followings[..i] + [followings[i]];
        children := children + followings[i].journal.children;
      }
      assert followings[..|followings|] == followings;
    }

    /**
     * `limit_check` of `get_entries`: `counter` is the `count()` iterator
     * drawn from only under a count limit, and `k` checks came before this one.
     */
    method LimitCheck(limit: Limit, counter: int, ghost k: nat, e: Entry) returns (stop: bool, counter': int)
      requires limit.Count? ==> counter == k
      ensures stop == Stops(limit, k, e)
      ensures limit.Count? ==> counter' == k + 1
    {
      counter' := counter;
      match limit {
        case Count(n) =>
          stop := n <= counter';
          counter' := counter' + 1;
        case Before(t) =>
          stop := t > e.timestamp;
        case NoLimit =>
          stop := false;
      }
    }

    /**
     * One page of `get_entries`: each entry in turn is checked against the
     * limit and yielded, until the check stops the walk. `entry` is the last
     * entry processed so far, `None` while none has been.
     */
    method ScanPage(limit: Limit, es: seq<Entry>, counter: int, ghost k: nat, entry: Option<Entry>)
      returns (yielded: seq<Entry>, stopped: bool, counter': int, entry': Option<Entry>)
      requires limit.Count? ==> counter == k
      ensures stopped <==> FirstStop(limit, es, k) < |es|
      ensures yielded == es[..FirstStop(limit, es, k)]
      ensures !stopped && limit.Count? ==> counter' == k + |es|
      ensures !stopped ==> entry' == if es == [] then entry else Some(es[|es| - 1])
    {
      yielded, counter', entry' := [], counter, entry;
      for j := 0 to |es|
        invariant yielded == es[..j]
        invariant limit.Count? ==> counter' == k + j
        invariant forall x :: 0 <= x < j ==> !Stops(limit, k + x, es[x])
        invariant entry' == if j == 0 then entry else Some(es[j - 1])
      {
        stopped, counter' := LimitCheck(limit, counter', k + j, es[j]);
        if stopped {
          return;
        }
        entry' := Some(es[j]);
        yielded := yielded + [es[j]];
      }
      assert es[..|es|] == es;
      stopped := false;
    }

    /**
     * The body of the `get_entries` loop for the reply `r` to the request
     * made with `cursor`: raise on a failed status, scan the page, then read
     * the new cursor off the last entry processed and the count of entries
     * the server still holds.
     */
    method ProcessPage(limit: Limit, r: Response, counter: int, ghost k: nat, cursor: int, entry: Option<Entry>)
      returns (step: Step, remaining: int, counter': int, entry': Option<Entry>)
      requires limit.Count? ==> counter == k
      requires entry.Some? ==> entry.value.timestamp == cursor
      ensures step == PageStep(limit, r, k, cursor, entry.Some?)
      ensures step.Continue? ==> remaining > 0
      ensures step.Final? && step.end == Exhausted ==> remaining <= 0
      ensures step.Continue? ==> entry'.Some? && entry'.value.timestamp == step.cursor
      ensures step.Continue? && limit.Count? ==> counter' == k + |r.entries|
    {
      remaining, counter', entry' := 0, counter, entry;
      if RaisesForStatus(r.status) {
        return Final([], Raised(HttpError(r.status))), remaining, counter', entry';
      }
      var page, stopped;
      page, stopped, counter', entry' := ScanPage(limit, r.entries, counter, k, entry);
      if stopped {
        return Final(page, LimitReached), remaining, counter', entry';
      }
      assert page == r.entries by {
        assert r.entries[..|r.entries|] == r.entries;
      }
      if entry'.None? {
        return Final([], Raised(EntryUnbound)), remaining, counter', entry';
      }
      remaining := Remaining(r);
      if remaining > 0 {
        step := Continue(page, entry'.value.timestamp);
      } else {
        step := Final(page, Exhausted);
      }
    }

    /**
     * The request loop of `get_entries` for the journal `journalId`, from the
     * cursor `start`: request a page, process it, and go on while the server
     * reports entries remaining.
     */
    method FetchPages(limit: Limit, journalId: int, start: int, responses: seq<Response>) returns (o: Outcome)
      ensures o == Walk(limit, journalId, responses, start)
    {
      ghost var total := Walk(limit, journalId, responses, start);
      var cursor := start;
      var counter := 0;
      var yielded: seq<Entry> := [];
      var requests: seq<PageRequest> := [];
      var entry: Option<Entry> := None;
      var remaining := 1;
      var i := 0;
      while remaining > 0
        invariant 0 <= i <= |responses|
        invariant remaining > 0 && limit.Count? ==> counter == |yielded|
        invariant remaining > 0 && entry.Some? ==> entry.value.timestamp == cursor
        invariant remaining > 0 ==>
          total == After(yielded, requests, Run(limit, journalId, responses[i..], |yielded|, cursor, entry.Some?))
        invariant remaining <= 0 ==> total == Outcome(yielded, requests, Exhausted)
        decreases |responses| - i
      {
        if i == |responses| {
          requests := requests + [Request(journalId, cursor)];
          return Outcome(yielded, requests, Unanswered);
        }
        var step;
        ghost var ys, qs, cursor0, bound := yielded, requests, cursor, entry.Some?;
        requests := requests + [Request(journalId, cursor)];
        step, remaining, counter, entry := ProcessPage(limit, responses[i], counter, |yielded|, cursor, entry);
        RunTurn(limit, journalId, responses, i, cursor0, bound, ys, qs, total, step);
        yielded := yielded + step.entries;
        i := i + 1;
        if step.Final? && step.end != Exhausted {
          return Outcome(yielded, requests, step.end);
        }
        if step.Continue? {
          cursor := step.cursor;
        }
      }
      return Outcome(yielded, requests, Exhausted);
    }

    /**
     * `get_entries` for `child`, starting at the cursor `last` (the current
     * time `now` when absent), against the scripted `responses`. The child's
     * journal is read before the first request is made.
     */
    method GetEntries(child: Child, last: Option<int>, now: int, limit: Limit, responses: seq<Response>) returns (o: Outcome)
      ensures child.journal == null ==> o == Outcome([], [], Raised(JournalNotSet))
      ensures child.journal != null ==>
        o == Walk(limit, child.journal.id, responses, if last.Some? then last.value else now)
    {
      var cursor := if last.Some? then last.value else now;
      var journal := child.GetJournal();
      if journal.Err? {
        return Outcome([], [], Raised(journal.error));
      }
      o := FetchPages(limit, journal.value.id, cursor, responses);
    }
  }
}
