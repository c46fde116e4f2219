/** Executing one curl plan: a redirect loop inside a retry loop, against a
    server, a clock and a network that may behave in any way. */
module Transfer {
  import opened Text

  /** What one hop asks for. */
  datatype Request = Request(url: string, verb: string, body: string, hasBody: bool)

  datatype WireError = WireCanceled | WireDeadline | WireTls | WireOther

  datatype Reply = Failed(error: WireError) | Response(status: int, location: string)

  /** What can be observed of an execution: requests with their replies, and
      responses being closed. A response is named by its place in the trace. */
  datatype Event =
    | Exchange(attempt: nat, hop: nat, request: Request, reply: Reply)
    | Unsent(attempt: nat, hop: nat, request: Request)
    | Close(response: nat)

  type Trace = seq<Event>

  datatype Context = Active | Canceled | Expired

  /** Where the program looks at its context. */
  datatype Moment = Checking | Classifying | Waiting

  /** The codes E605, E603, E601, E602, E600, E700, E304 and E303. */
  datatype Code = Cancelled | RedirectError | TimedOut | TlsError | TransferFailed | BodyLimit | InvalidUrl | FileDenied

  /** Everything outside the program. `build` and `resolve` fail with a
      message, of which only matters whether it mentions TLS. */
  datatype World = World(
    build: Request -> Option<bool>,
    server: (Trace, Request) -> Reply,
    resolve: (string, string) -> Result<string, bool>,
    context: (nat, Moment) -> Context,
    finish: Trace -> Option<Code>)

  datatype Plan = Plan(follow: bool, maxRedirs: nat, retry: nat, retryDelay: nat)

  datatype Cause =
    | NotBuilt(mentionsTls: bool)
    | Wire(error: WireError)
    | RedirectLimit
    | InvalidRedirect(mentionsTls: bool)
    | ContextEnded(context: Context)

  datatype Outcome = Received(response: nat, status: int, hops: nat) | Lost(cause: Cause)

  datatype Verdict = Transfer(status: int, redirectCount: nat, attempt: nat) | TransferError(code: Code)

  predicate RedirectStatus(code: int) {
    code == 301 || code == 302 || code == 303 || code == 307 || code == 308
  }

  predicate RetryableStatus(code: int) {
    code == 408 || code == 425 || code == 429 || code == 500 || code == 502 || code == 503 || code == 504
  }

  function Classify(cancelled: bool, cause: Cause): Code {
    if cancelled || cause == Wire(WireCanceled) || cause == ContextEnded(Canceled) then Cancelled
    else match cause
         case RedirectLimit => RedirectError
         case Wire(WireDeadline) => TimedOut
         case ContextEnded(Expired) => TimedOut
         case Wire(WireTls) => TlsError
         case NotBuilt(true) => TlsError
         case InvalidRedirect(true) => TlsError
         case _ => TransferFailed
  }

  predicate Follows(plan: Plan, reply: Reply) {
    plan.follow && reply.Response? && RedirectStatus(reply.status) && reply.location != ""
  }

  /** The request after a redirect with `status` to `url`. */
  function Redirected(request: Request, status: int, url: string): Request {
    if status == 303 || ((status == 301 || status == 302) && request.verb == "POST")
    then Request(url, "GET", "", false)
    else request.(url := url)
  }

  /** The request after a redirect whose location is valid. */
  function Next(w: World, request: Request, reply: Reply): Request
    requires reply.Response? && w.resolve(request.url, reply.location).Ok?
  {
    Redirected(request, reply.status, w.resolve(request.url, reply.location).value)
  }

  // ---------- One attempt ----------

  /** Attempt `n` from hop `hop` on. */
  function Attempt(w: World, plan: Plan, n: nat, hop: nat, request: Request, t: Trace): (Outcome, Trace)
    decreases if hop < plan.maxRedirs then plan.maxRedirs - hop else 0
  {
    match w.build(request)
    case Some(tls) => (Lost(NotBuilt(tls)), t + [Unsent(n, hop, request)])
    case None =>
      var reply := w.server(t, request);
      var sent := t + [Exchange(n, hop, request, reply)];
      match reply
      case Failed(error) => (Lost(Wire(error)), sent)
      case Response(status, location) =>
        if !Follows(plan, reply) then (Received(|t|, status, hop), sent)
        else if hop >= plan.maxRedirs then (Lost(RedirectLimit), sent + [Close(|t|)])
        else match w.resolve(request.url, location)
             case Err(tls) => (Lost(InvalidRedirect(tls)), sent + [Close(|t|)])
             case Ok(url) => Attempt(w, plan, n, hop + 1, Redirected(request, status, url), sent + [Close(|t|)])
  }

  // ---------- All attempts ----------

  /** What happens after attempt `n` gave `o` and the trace `t`: the verdict,
      or nothing when another attempt is made. */
  function Decide(w: World, plan: Plan, n: nat, o: Outcome, t: Trace): (Option<Verdict>, Trace) {
    match o
    case Received(response, status, hops) =>
      if !RetryableStatus(status) || n > plan.retry then
        (Some(match w.finish(t)
              case Some(code) => TransferError(code)
              case None => Transfer(status, hops, n)),
         t + [Close(response)])
      else (AfterWait(w, plan, n), t + [Close(response)])
    case Lost(cause) =>
      if n > plan.retry || w.context(n, Checking) != Active then
        (Some(TransferError(Classify(w.context(n, Classifying) == Canceled, cause))), t)
      else (AfterWait(w, plan, n), t)
  }

  /** The delay before the next attempt ends early when the context does. */
  function AfterWait(w: World, plan: Plan, n: nat): Option<Verdict> {
    var context := w.context(n, Waiting);
    if plan.retryDelay > 0 && context != Active
    then Some(TransferError(Classify(context == Canceled, ContextEnded(context))))
    else None
  }

  /** The attempts from number `n` on. */
  function Run(w: World, plan: Plan, origin: Request, n: nat, t: Trace): (Verdict, Trace)
    decreases if n <= plan.retry then plan.retry + 1 - n else 0
  {
    var (outcome, after) := Attempt(w, plan, n, 0, origin, t);
    var (verdict, closed) := Decide(w, plan, n, outcome, after);
    match verdict
    case Some(v) => (v, closed)
    case None => Run(w, plan, origin, n + 1, closed)
  }

  // ---------- The program ----------

  class Client {
    const world: World
    var trace: Trace

    constructor (w: World)
      ensures world == w && trace == []
    {
      world := w;
      trace := [];
    }

    method Do(attempt: nat, hop: nat, request: Request) returns (reply: Reply)
      modifies this
      ensures reply == world.server(old(trace), request)
      ensures trace == old(trace) + [Exchange(attempt, hop, request, reply)]
    {
      reply := world.server(trace, request);
      trace := trace + [Exchange(attempt, hop, request, reply)];
    }

    method CloseBody(response: nat)
      modifies this
      ensures trace == old(trace) + [Close(response)]
    {
      trace := trace + [Close(response)];
    }

    /** One transfer attempt, following redirects. */
    method DoOnce(plan: Plan, attempt: nat, origin: Request) returns (outcome: Outcome)
      modifies this
      ensures (outcome, trace) == Attempt(world, plan, attempt, 0, origin, old(trace))
    {
      var current := origin.url;
      var verb := origin.verb;
      var currentBody := origin.body;
      var currentHasBody := origin.hasBody;
      var hops: nat := 0;
      ghost var goal := Attempt(world, plan, attempt, 0, origin, trace);
      while true
        invariant hops <= plan.maxRedirs
        invariant Attempt(world, plan, attempt, hops, Request(current, verb, currentBody, currentHasBody), trace)
               == goal
        decreases plan.maxRedirs - hops
      {
        var request := Request(current, verb, currentBody, currentHasBody);
        var built := world.build(request);
        if built.Some? {
          trace := trace + [Unsent(attempt, hops, request)];
          return Lost(NotBuilt(built.value));
        }
        var response := |trace|;
        var reply := Do(attempt, hops, request);
        if reply.Failed? {
          return Lost(Wire(reply.error));
        }
        if !(plan.follow && RedirectStatus(reply.status) && reply.location != "") {
          return Received(response, reply.status, hops);
        }
        if hops >= plan.maxRedirs {
          CloseBody(response);
          return Lost(RedirectLimit);
        }
        var next := world.resolve(current, reply.location);
        if next.Err? {
          CloseBody(response);
          return Lost(InvalidRedirect(next.error));
        }
        hops := hops + 1;
        if reply.status == 303 || ((reply.status == 301 || reply.status == 302) && verb == "POST") {
          verb := "GET";
          currentBody := "";
          currentHasBody := false;
        }
        CloseBody(response);
        current := next.value;
      }
    }

    /** `finishTransfer`: the response is closed whether or not reading it
        succeeds. */
    method FinishTransfer(response: nat, status: int, hops: nat, attempt: nat) returns (verdict: Verdict)
      modifies this
      ensures trace == old(trace) + [Close(response)]
      ensures verdict == match world.finish(old(trace))
                         case Some(code) => TransferError(code)
                         case None => Transfer(status, hops, attempt)
    {
      var error := world.finish(trace);
      verdict := if error.Some? then TransferError(error.value) else Transfer(status, hops, attempt);
      CloseBody(response);
    }

    /** The retry loop. */
    method Attempts(plan: Plan, origin: Request) returns (verdict: Verdict)
      modifies this
      ensures (verdict, trace) == Run(world, plan, origin, 1, old(trace))
    {
      var attempt: nat := 0;
      ghost var goal := Run(world, plan, origin, 1, trace);
      while true
        invariant Run(world, plan, origin, attempt + 1, trace) == goal
        invariant attempt <= plan.retry
        decreases plan.retry + 1 - attempt
      {
        attempt := attempt + 1;
        var outcome := DoOnce(plan, attempt, origin);
        if outcome.Received? && (!RetryableStatus(outcome.status) || attempt > plan.retry) {
          verdict := FinishTransfer(outcome.response, outcome.status, outcome.hops, attempt);
          return;
        }
        if outcome.Lost? {
          if attempt > plan.retry || world.context(attempt, Checking) != Active {
            return TransferError(Classify(world.context(attempt, Classifying) == Canceled, outcome.cause));
          }
        } else {
          CloseBody(outcome.response);
        }
        if plan.retryDelay > 0 {
          var context := world.context(attempt, Waiting);
          if context != Active {
            return TransferError(Classify(context == Canceled, ContextEnded(context)));
          }
        }
      }
    }
  }

  /** One turn of the retry loop. */
  lemma {:induction false} RunTurn(w: World, plan: Plan, origin: Request, n: nat, t: Trace)
    returns (outcome: Outcome, after: Trace, verdict: Option<Verdict>, closed: Trace)
    requires n <= plan.retry + 1
    ensures (outcome, after) == Attempt(w, plan, n, 0, origin, t)
    ensures (verdict, closed) == Decide(w, plan, n, outcome, after)
    ensures verdict.Some? ==> Run(w, plan, origin, n, t) == (verdict.value, closed)
    ensures verdict.None? ==> n <= plan.retry && Run(w, plan, origin, n, t) == Run(w, plan, origin, n + 1, closed)
  {
    var attempt := Attempt(w, plan, n, 0, origin, t);
    outcome, after := attempt.0, attempt.1;
    var decision := Decide(w, plan, n, outcome, after);
    verdict, closed := decision.0, decision.1;
  }

  // ---------- Responses are closed exactly once ----------

  predicate IsResponse(t: Trace, i: nat) {
    i < |t| && t[i].Exchange? && t[i].reply.Response?
  }

  /** How often response `i` has been closed. */
  function Closings(t: Trace, i: nat): nat {
    if t == [] then 0 else Closings(t[..|t| - 1], i) + (if t[|t| - 1] == Close(i) then 1 else 0)
  }

  lemma {:induction false} ClosingsAppend(t: Trace, e: Event, i: nat)
    ensures Closings(t + [e], i) == Closings(t, i) + (if e == Close(i) then 1 else 0)
  {
    assert (t + [e])[..|t|] == t;
  }

  /** Every response is closed once, after it was obtained, except those in
      `open`, which are not closed; nothing else is closed. */
  ghost predicate Owned(t: Trace, open: set<nat>) {
    && (forall i: nat :: Closings(t, i) == if IsResponse(t, i) && i !in open then 1 else 0)
    && (forall j :: 0 <= j < |t| && t[j].Close? ==> t[j].response < j)
  }

  lemma {:induction false} OwnExchange(t: Trace, e: Event)
    requires Owned(t, {}) && !e.Close?
    ensures Owned(t + [e], if e.Exchange? && e.reply.Response? then {|t|} else {})
  {
    forall i: nat
      ensures Closings(t + [e], i) == Closings(t, i)
    {
      ClosingsAppend(t, e, i);
    }
  }

  lemma {:induction false} OwnClose(t: Trace, response: nat)
    requires Owned(t, {response}) && IsResponse(t, response)
    ensures Owned(t + [Close(response)], {})
  {
    forall i: nat
      ensures Closings(t + [Close(response)], i) == Closings(t, i) + (if i == response then 1 else 0)
    {
      ClosingsAppend(t, Close(response), i);
    }
  }

  lemma {:induction false} AttemptOwned(w: World, plan: Plan, n: nat, hop: nat, request: Request, t: Trace)
    requires Owned(t, {})
    ensures var (o, after) := Attempt(w, plan, n, hop, request, t);
            && Owned(after, if o.Received? then {o.response} else {})
            && (o.Received? ==> IsResponse(after, o.response))
    decreases if hop < plan.maxRedirs then plan.maxRedirs - hop else 0
  {
    if w.build(request).None? {
      var reply := w.server(t, request);
      var sent := t + [Exchange(n, hop, request, reply)];
      OwnExchange(t, Exchange(n, hop, request, reply));
      if Follows(plan, reply) {
        OwnClose(sent, |t|);
        if hop < plan.maxRedirs && w.resolve(request.url, reply.location).Ok? {
          AttemptOwned(w, plan, n, hop + 1, Next(w, request, reply),
                       sent + [Close(|t|)]);
        }
      }
    }
  }

  lemma {:induction false} DecideOwned(w: World, plan: Plan, n: nat, o: Outcome, t: Trace)
    requires Owned(t, if o.Received? then {o.response} else {})
    requires o.Received? ==> IsResponse(t, o.response)
    ensures Owned(Decide(w, plan, n, o, t).1, {})
  {
    if o.Received? {
      OwnClose(t, o.response);
    }
  }

  lemma {:induction false} RunOwned(w: World, plan: Plan, origin: Request, n: nat, t: Trace)
    requires Owned(t, {}) && n <= plan.retry + 1
    ensures Owned(Run(w, plan, origin, n, t).1, {})
    decreases plan.retry + 1 - n
  {
    var outcome, after, verdict, closed := RunTurn(w, plan, origin, n, t);
    AttemptOwned(w, plan, n, 0, origin, t);
    DecideOwned(w, plan, n, outcome, after);
    if verdict.None? {
      RunOwned(w, plan, origin, n + 1, closed);
    }
  }

  /** When an execution returns, every response it obtained has been closed
      exactly once. */
  lemma {:induction false} ResponsesClosed(w: World, plan: Plan, origin: Request)
    ensures Owned(Run(w, plan, origin, 1, []).1, {})
  {
    RunOwned(w, plan, origin, 1, []);
  }

  // ---------- How many requests ----------

  function Requests(t: Trace): nat {
    if t == [] then 0 else Requests(t[..|t| - 1]) + (if t[|t| - 1].Exchange? then 1 else 0)
  }

  lemma {:induction false} RequestsAppend(t: Trace, e: Event)
    ensures Requests(t + [e]) == Requests(t) + (if e.Exchange? then 1 else 0)
  {
    assert (t + [e])[..|t|] == t;
  }

  lemma {:induction false} AttemptRequests(w: World, plan: Plan, n: nat, hop: nat, request: Request, t: Trace)
    requires hop <= plan.maxRedirs
    ensures Requests(Attempt(w, plan, n, hop, request, t).1) <= Requests(t) + plan.maxRedirs - hop + 1
    decreases plan.maxRedirs - hop
  {
    if w.build(request).None? {
      var reply := w.server(t, request);
      var sent := t + [Exchange(n, hop, request, reply)];
      RequestsAppend(t, Exchange(n, hop, request, reply));
      RequestsAppend(sent, Close(|t|));
      if Follows(plan, reply) && hop < plan.maxRedirs && w.resolve(request.url, reply.location).Ok? {
        AttemptRequests(w, plan, n, hop + 1, Next(w, request, reply),
                        sent + [Close(|t|)]);
      }
    }
  }

  /** What `attempts` further attempts may send. */
  function Budget(attempts: nat, plan: Plan): nat {
    if attempts == 0 then 0 else plan.maxRedirs + 1 + Budget(attempts - 1, plan)
  }

  lemma {:induction false} BudgetIs(attempts: nat, plan: Plan)
    ensures Budget(attempts, plan) == attempts * (plan.maxRedirs + 1)
  {
    if attempts > 0 {
      BudgetIs(attempts - 1, plan);
      assert (attempts - 1) * (plan.maxRedirs + 1) == attempts * (plan.maxRedirs + 1) - (plan.maxRedirs + 1);
    }
  }

  lemma {:induction false} DecideRequests(w: World, plan: Plan, n: nat, o: Outcome, t: Trace)
    ensures Requests(Decide(w, plan, n, o, t).1) == Requests(t)
  {
    if o.Received? {
      RequestsAppend(t, Close(o.response));
    }
  }

  lemma {:induction false} RunRequests(w: World, plan: Plan, origin: Request, n: nat, t: Trace)
    requires n <= plan.retry + 1
    ensures Requests(Run(w, plan, origin, n, t).1) <= Requests(t) + Budget(plan.retry + 2 - n, plan)
    decreases plan.retry + 1 - n
  {
    var outcome, after, verdict, closed := RunTurn(w, plan, origin, n, t);
    AttemptRequests(w, plan, n, 0, origin, t);
    DecideRequests(w, plan, n, outcome, after);
    if verdict.None? {
      RunRequests(w, plan, origin, n + 1, closed);
    }
  }

  /** However the server answers, no more requests are sent than attempts times
      hops allow. */
  lemma {:induction false} RequestsBounded(w: World, plan: Plan, origin: Request)
    ensures Requests(Run(w, plan, origin, 1, []).1) <= (plan.retry + 1) * (plan.maxRedirs + 1)
  {
    RunRequests(w, plan, origin, 1, []);
    BudgetIs(plan.retry + 1, plan);
  }

  // ---------- What every request asks for ----------

  /** Before position `i` of the trace, attempt `n` met a redirect that turns
      the request into a GET without a body. */
  ghost predicate Rewritten(origin: Request, t: Trace, i: nat, n: nat) {
    exists j :: 0 <= j < i && j < |t| && Rewrites(origin, t[j], n)
  }

  predicate Rewrites(origin: Request, e: Event, n: nat) {
    && e.Exchange? && e.attempt == n && e.reply.Response?
    && (e.reply.status == 303 || ((e.reply.status == 301 || e.reply.status == 302) && origin.verb == "POST"))
  }

  /** The request is the original one, or GET with the body gone. */
  predicate Asks(origin: Request, rewritten: bool, request: Request) {
    && request.verb == (if rewritten then "GET" else origin.verb)
    && request.body == (if rewritten then "" else origin.body)
    && request.hasBody == (!rewritten && origin.hasBody)
  }

  /** `e` is a redirect of attempt `n` at hop `hop` that leads to `url`. */
  ghost predicate LeadsHere(w: World, plan: Plan, e: Event, n: nat, hop: nat, url: string) {
    && e.Exchange? && e.attempt == n && e.hop == hop
    && Follows(plan, e.reply) && w.resolve(e.request.url, e.reply.location) == Ok(url)
  }

  /** The URL of the request at `hop` of attempt `n`, when the trace has
      reached position `i`: where the redirect before it points, or the target
      when the attempt is only beginning. */
  ghost predicate Arrives(w: World, plan: Plan, origin: Request, t: Trace, i: nat, n: nat, hop: nat, url: string) {
    if hop == 0 then url == origin.url && forall j :: 0 <= j < i && j < |t| && !t[j].Close? ==> t[j].attempt < n
    else exists j :: 0 <= j < i && j < |t| && LeadsHere(w, plan, t[j], n, hop - 1, url)
  }

  /** The exchange at `i` is what the plan and the statuses so far determine. */
  ghost predicate Lawful(w: World, plan: Plan, origin: Request, t: Trace, i: nat) {
    i < |t| && !t[i].Close? ==>
      && 1 <= t[i].attempt <= plan.retry + 1 && t[i].hop <= plan.maxRedirs
      && Asks(origin, Rewritten(origin, t, i, t[i].attempt), t[i].request)
      && Arrives(w, plan, origin, t, i, t[i].attempt, t[i].hop, t[i].request.url)
  }

  ghost predicate AllLawful(w: World, plan: Plan, origin: Request, t: Trace, n: nat) {
    && (forall i: nat :: i < |t| ==> Lawful(w, plan, origin, t, i))
    && (forall i :: 0 <= i < |t| && !t[i].Close? ==> t[i].attempt <= n)
  }

  /** Where an attempt stands between two hops. */
  ghost predicate OnTheWay(w: World, plan: Plan, origin: Request, t: Trace, n: nat, hop: nat, request: Request) {
    && AllLawful(w, plan, origin, t, n)
    && 1 <= n <= plan.retry + 1 && hop <= plan.maxRedirs
    && Asks(origin, Rewritten(origin, t, |t|, n), request)
    && Arrives(w, plan, origin, t, |t|, n, hop, request.url)
  }

  /** The past of a trace does not change when the trace grows. */
  lemma {:induction false} PastKept(w: World, plan: Plan, origin: Request, t: Trace, e: Event, i: nat, n: nat,
                                    hop: nat, url: string)
    requires i <= |t|
    ensures Rewritten(origin, t + [e], i, n) == Rewritten(origin, t, i, n)
    ensures Arrives(w, plan, origin, t + [e], i, n, hop, url) == Arrives(w, plan, origin, t, i, n, hop, url)
  {
    var after := t + [e];
    assert forall j :: 0 <= j < |t| ==> after[j] == t[j];
    if Rewritten(origin, t, i, n) {
      var j :| 0 <= j < i && j < |t| && Rewrites(origin, t[j], n);
      assert Rewrites(origin, after[j], n);
    }
    if hop > 0 && Arrives(w, plan, origin, t, i, n, hop, url) {
      var j :| 0 <= j < i && j < |t| && LeadsHere(w, plan, t[j], n, hop - 1, url);
      assert LeadsHere(w, plan, after[j], n, hop - 1, url);
    }
  }

  lemma {:induction false} LawfulAppend(w: World, plan: Plan, origin: Request, t: Trace, e: Event, n: nat)
    requires AllLawful(w, plan, origin, t, n)
    requires !e.Close? ==> OnTheWay(w, plan, origin, t, n, e.hop, e.request) && e.attempt == n
    ensures AllLawful(w, plan, origin, t + [e], n)
  {
    var after := t + [e];
    forall i: nat | i < |after|
      ensures Lawful(w, plan, origin, after, i)
    {
      if !after[i].Close? {
        assert i < |t| ==> after[i] == t[i] && Lawful(w, plan, origin, t, i);
        PastKept(w, plan, origin, t, e, i, after[i].attempt, after[i].hop, after[i].request.url);
      }
    }
  }

  /** A close at the end of a trace changes nothing about the past. */
  lemma {:induction false} CloseQuiet(w: World, plan: Plan, origin: Request, t: Trace, r: nat, n: nat, hop: nat,
                                      url: string)
    ensures Rewritten(origin, t + [Close(r)], |t| + 1, n) == Rewritten(origin, t, |t|, n)
    ensures Arrives(w, plan, origin, t, |t|, n, hop, url) ==>
              Arrives(w, plan, origin, t + [Close(r)], |t| + 1, n, hop, url)
  {
    var after := t + [Close(r)];
    PastKept(w, plan, origin, t, Close(r), |t|, n, hop, url);
    if Rewritten(origin, after, |t| + 1, n) {
      var j :| 0 <= j < |t| + 1 && j < |after| && Rewrites(origin, after[j], n);
      assert j < |t|;
    }
  }

  /** The request after a followed redirect. */
  lemma {:induction false} NextHop(w: World, plan: Plan, origin: Request, t: Trace, n: nat, hop: nat,
                                   request: Request, reply: Reply, url: string)
    requires OnTheWay(w, plan, origin, t, n, hop, request) && hop < plan.maxRedirs
    requires Follows(plan, reply) && w.resolve(request.url, reply.location) == Ok(url)
    ensures OnTheWay(w, plan, origin, t + [Exchange(n, hop, request, reply)], n, hop + 1,
                     Redirected(request, reply.status, url))
  {
    var e := Exchange(n, hop, request, reply);
    var sent := t + [e];
    LawfulAppend(w, plan, origin, t, e, n);
    PastKept(w, plan, origin, t, e, |t|, n, hop, url);
    assert LeadsHere(w, plan, sent[|t|], n, hop, url);
    assert Rewritten(origin, sent, |sent|, n) == (Rewritten(origin, sent, |t|, n) || Rewrites(origin, e, n)) by {
      if Rewritten(origin, sent, |sent|, n) && !Rewritten(origin, sent, |t|, n) {
        var j :| 0 <= j < |sent| && Rewrites(origin, sent[j], n);
        assert j == |t|;
      }
      assert sent[|t|] == e;
    }
  }

  lemma {:induction false} AttemptLawful(w: World, plan: Plan, origin: Request, n: nat, hop: nat, request: Request,
                                         t: Trace)
    requires OnTheWay(w, plan, origin, t, n, hop, request)
    ensures AllLawful(w, plan, origin, Attempt(w, plan, n, hop, request, t).1, n)
    decreases plan.maxRedirs - hop
  {
    if w.build(request).None? {
      var reply := w.server(t, request);
      var sent := t + [Exchange(n, hop, request, reply)];
      LawfulAppend(w, plan, origin, t, Exchange(n, hop, request, reply), n);
      LawfulAppend(w, plan, origin, sent, Close(|t|), n);
      if Follows(plan, reply) && hop < plan.maxRedirs && w.resolve(request.url, reply.location).Ok? {
        var url := w.resolve(request.url, reply.location).value;
        var next := Redirected(request, reply.status, url);
        NextHop(w, plan, origin, t, n, hop, request, reply, url);
        CloseQuiet(w, plan, origin, sent, |t|, n, hop + 1, url);
        AttemptLawful(w, plan, origin, n, hop + 1, next, sent + [Close(|t|)]);
      }
    } else {
      LawfulAppend(w, plan, origin, t, Unsent(n, hop, request), n);
    }
  }

  lemma {:induction false} BeginAttempt(w: World, plan: Plan, origin: Request, n: nat, t: Trace)
    requires 1 <= n <= plan.retry + 1 && AllLawful(w, plan, origin, t, n - 1)
    ensures OnTheWay(w, plan, origin, t, n, 0, origin)
  {
    assert !Rewritten(origin, t, |t|, n);
  }

  lemma {:induction false} RunLawful(w: World, plan: Plan, origin: Request, n: nat, t: Trace)
    requires 1 <= n <= plan.retry + 1 && AllLawful(w, plan, origin, t, n - 1)
    ensures AllLawful(w, plan, origin, Run(w, plan, origin, n, t).1, plan.retry + 1)
    decreases plan.retry + 1 - n
  {
    var outcome, after, verdict, closed := RunTurn(w, plan, origin, n, t);
    BeginAttempt(w, plan, origin, n, t);
    AttemptLawful(w, plan, origin, n, 0, origin, t);
    if outcome.Received? {
      LawfulAppend(w, plan, origin, after, Close(outcome.response), n);
    }
    if verdict.None? {
      RunLawful(w, plan, origin, n + 1, closed);
    }
  }

  /** Along every redirect chain of every attempt, each request is determined
      by the plan and the statuses before it in the same attempt: kept through
      307 and 308, and through 301 and 302 unless the original is a POST,
      otherwise GET without a body to the end of the attempt. Each attempt
      begins with the original request, and each later hop goes where the
      redirect before it points. */
  lemma {:induction false} RequestsLawful(w: World, plan: Plan, origin: Request)
    ensures AllLawful(w, plan, origin, Run(w, plan, origin, 1, []).1, plan.retry + 1)
  {
    RunLawful(w, plan, origin, 1, []);
  }

  lemma {:induction false} RetryRestarts(w: World, plan: Plan, origin: Request, t: Trace, n: nat, i: nat)
    requires AllLawful(w, plan, origin, t, n) && i < |t| && !t[i].Close? && t[i].hop == 0
    ensures t[i].request == origin
  {
    assert Lawful(w, plan, origin, t, i);
    assert !Rewritten(origin, t, i, t[i].attempt);
  }

  // ---------- What is returned ----------

  /** Only redirects that are followed, failures and retryable responses are
      passed over. */
  predicate PassedOver(plan: Plan, e: Event) {
    e.Exchange? && e.reply.Response? ==> Follows(plan, e.reply) || RetryableStatus(e.reply.status)
  }

  ghost predicate AllPassedOver(plan: Plan, t: Trace, upTo: nat) {
    forall i :: 0 <= i < upTo && i < |t| ==> PassedOver(plan, t[i])
  }

  /** The transfer reports the last exchange, which ends the execution: it is
      not retryable or there is no attempt left; everything before it was
      passed over. */
  ghost predicate Final(plan: Plan, verdict: Verdict, t: Trace) {
    verdict.Transfer? ==>
      && |t| >= 2 && t[|t| - 1] == Close(|t| - 2) && IsResponse(t, |t| - 2)
      && var last := t[|t| - 2];
      && verdict == Transfer(last.reply.status, last.hop, last.attempt)
      && !Follows(plan, last.reply)
      && 1 <= verdict.attempt <= plan.retry + 1 && verdict.redirectCount <= plan.maxRedirs
      && (!RetryableStatus(verdict.status) || verdict.attempt == plan.retry + 1)
      && AllPassedOver(plan, t, |t| - 2)
  }

  lemma {:induction false} AttemptFinal(w: World, plan: Plan, n: nat, hop: nat, request: Request, t: Trace)
    requires AllPassedOver(plan, t, |t|) && hop <= plan.maxRedirs
    ensures var (o, after) := Attempt(w, plan, n, hop, request, t);
            && (o.Lost? ==> AllPassedOver(plan, after, |after|))
            && (o.Received? ==>
                  && o.response == |after| - 1 && IsResponse(after, o.response)
                  && var last := after[|after| - 1];
                  && !Follows(plan, last.reply) && last.reply.status == o.status
                  && last.hop == o.hops <= plan.maxRedirs && last.attempt == n
                  && AllPassedOver(plan, after, |after| - 1))
    decreases plan.maxRedirs - hop
  {
    if w.build(request).None? {
      var reply := w.server(t, request);
      if Follows(plan, reply) && hop < plan.maxRedirs && w.resolve(request.url, reply.location).Ok? {
        AttemptFinal(w, plan, n, hop + 1, Next(w, request, reply),
                     t + [Exchange(n, hop, request, reply)] + [Close(|t|)]);
      }
    }
  }

  lemma {:induction false} RunFinal(w: World, plan: Plan, origin: Request, n: nat, t: Trace)
    requires AllPassedOver(plan, t, |t|) && 1 <= n <= plan.retry + 1
    ensures Final(plan, Run(w, plan, origin, n, t).0, Run(w, plan, origin, n, t).1)
    decreases plan.retry + 1 - n
  {
    var outcome, after, verdict, closed := RunTurn(w, plan, origin, n, t);
    AttemptFinal(w, plan, n, 0, origin, t);
    if verdict.None? {
      RunFinal(w, plan, origin, n + 1, closed);
    }
  }

  /** A returned transfer is the last response, and it is not retryable or it
      used the last attempt. */
  lemma {:induction false} TransferFinal(w: World, plan: Plan, origin: Request)
    ensures Final(plan, Run(w, plan, origin, 1, []).0, Run(w, plan, origin, 1, []).1)
  {
    RunFinal(w, plan, origin, 1, []);
  }

  // ---------- Which executions report a redirect error ----------

  /** Reading a response does not itself report a redirect error. */
  ghost predicate ReadsCleanly(w: World) {
    forall t :: w.finish(t) != Some(RedirectError)
  }

  /** The last exchange is a redirect that was to be followed with no hop left,
      in an attempt after which there is no other, and not cancelled. */
  ghost predicate LimitReached(w: World, plan: Plan, t: Trace) {
    && AtLimit(plan, t)
    && var n := t[|t| - 2].attempt;
    (n > plan.retry || w.context(n, Checking) != Active) && w.context(n, Classifying) != Canceled
  }

  ghost predicate AtLimit(plan: Plan, t: Trace) {
    && |t| >= 2 && t[|t| - 1] == Close(|t| - 2)
    && t[|t| - 2].Exchange? && t[|t| - 2].hop == plan.maxRedirs && Follows(plan, t[|t| - 2].reply)
  }

  /** The attempt has sent something: the trace ends with its last exchange. */
  ghost predicate LastOf(plan: Plan, n: nat, o: Outcome, t: Trace) {
    && (o == Lost(RedirectLimit) <==> AtLimit(plan, t))
    && (AtLimit(plan, t) ==> t[|t| - 2].attempt == n)
    && (o.Received? ==> |t| >= 1 && o.response == |t| - 1 && t[|t| - 1].Exchange? && !Follows(plan, t[|t| - 1].reply))
  }

  lemma {:induction false} AttemptEnds(w: World, plan: Plan, n: nat, hop: nat, request: Request, t: Trace)
    requires hop <= plan.maxRedirs && !AtLimit(plan, t)
    ensures LastOf(plan, n, Attempt(w, plan, n, hop, request, t).0, Attempt(w, plan, n, hop, request, t).1)
    decreases plan.maxRedirs - hop
  {
    if w.build(request).None? {
      var reply := w.server(t, request);
      var sent := t + [Exchange(n, hop, request, reply)];
      if Follows(plan, reply) && hop < plan.maxRedirs && w.resolve(request.url, reply.location).Ok? {
        AttemptEnds(w, plan, n, hop + 1, Next(w, request, reply),
                    sent + [Close(|t|)]);
      }
    }
  }

  /** When attempt `n` begins with nothing sent at a limit of its own. */
  lemma {:induction false} AttemptOutcome(w: World, plan: Plan, origin: Request, n: nat, t: Trace)
    returns (o: Outcome, after: Trace)
    requires AtLimit(plan, t) ==> t[|t| - 2].attempt < n
    ensures (o, after) == Attempt(w, plan, n, 0, origin, t)
    ensures o == Lost(RedirectLimit) ==> AtLimit(plan, after) && after[|after| - 2].attempt == n
    ensures o != Lost(RedirectLimit) && AtLimit(plan, after) ==> after == t
    ensures o.Received? ==>
              && |after| >= 1 && o.response == |after| - 1 && after[|after| - 1].Exchange?
              && !Follows(plan, after[|after| - 1].reply)
  {
    o, after := Attempt(w, plan, n, 0, origin, t).0, Attempt(w, plan, n, 0, origin, t).1;
    if w.build(origin).None? {
      var reply := w.server(t, origin);
      var sent := t + [Exchange(n, 0, origin, reply)];
      if Follows(plan, reply) && 0 < plan.maxRedirs && w.resolve(origin.url, reply.location).Ok? {
        AttemptEnds(w, plan, n, 1, Next(w, origin, reply),
                    sent + [Close(|t|)]);
      }
    }
  }

  /** An ended context is never reported as a redirect error. */
  lemma WaitEnds(w: World, plan: Plan, n: nat)
    ensures AfterWait(w, plan, n) != Some(TransferError(RedirectError))
  {}

  /** One attempt and the decision after it. */
  lemma {:induction false} DecideEnds(w: World, plan: Plan, n: nat, o: Outcome, t: Trace, after: Trace)
    requires ReadsCleanly(w) && !LimitReached(w, plan, t)
    requires o == Lost(RedirectLimit) ==> AtLimit(plan, after) && after[|after| - 2].attempt == n
    requires o != Lost(RedirectLimit) && AtLimit(plan, after) ==> after == t
    requires o.Received? ==>
               && |after| >= 1 && o.response == |after| - 1 && after[|after| - 1].Exchange?
               && !Follows(plan, after[|after| - 1].reply)
    ensures var (verdict, closed) := Decide(w, plan, n, o, after);
            && (verdict.Some? ==> (verdict.value == TransferError(RedirectError) <==> LimitReached(w, plan, closed)))
            && (verdict.None? ==> !LimitReached(w, plan, closed))
            && (AtLimit(plan, closed) ==> closed == after)
  {
    WaitEnds(w, plan, n);
    if o.Received? {
      assert !AtLimit(plan, after + [Close(o.response)]);
      assert w.finish(after) != Some(RedirectError);
    }
  }

  lemma {:induction false} RunRedirects(w: World, plan: Plan, origin: Request, n: nat, t: Trace)
    requires ReadsCleanly(w) && 1 <= n <= plan.retry + 1 && !LimitReached(w, plan, t)
    requires AtLimit(plan, t) ==> t[|t| - 2].attempt < n
    ensures Run(w, plan, origin, n, t).0 == TransferError(RedirectError) <==>
              LimitReached(w, plan, Run(w, plan, origin, n, t).1)
    decreases plan.retry + 1 - n
  {
    var o, after := AttemptOutcome(w, plan, origin, n, t);
    var _, _, verdict, closed := RunTurn(w, plan, origin, n, t);
    DecideEnds(w, plan, n, o, t, after);
    if verdict.None? {
      RunRedirects(w, plan, origin, n + 1, closed);
    }
  }

  /** An execution reports a redirect error exactly when its last exchange is a
      redirect to be followed with no hop left, no attempt follows it, and it
      was not cancelled. An invalid location never leads to one. */
  lemma {:induction false} RedirectErrorExact(w: World, plan: Plan, origin: Request)
    requires ReadsCleanly(w)
    ensures Run(w, plan, origin, 1, []).0 == TransferError(RedirectError) <==>
              LimitReached(w, plan, Run(w, plan, origin, 1, []).1)
  {
    RunRedirects(w, plan, origin, 1, []);
  }

  /** Every location is invalid, every request is redirected. */
  ghost predicate InvalidLocations(w: World, mentionsTls: bool) {
    && (forall request :: w.build(request) == None)
    && (forall t, request :: w.server(t, request) == Response(302, "%"))
    && (forall url, location :: w.resolve(url, location) == Err(mentionsTls))
  }

  /** An invalid redirect location is raised with the redirect code and reported
      with another one: the code of a failed transfer, or of a TLS error when
      the message mentions TLS. */
  lemma {:induction false} InvalidLocationReported(w: World, plan: Plan, origin: Request, mentionsTls: bool)
    requires InvalidLocations(w, mentionsTls) && plan.follow && plan.maxRedirs > 0 && plan.retry == 0
    ensures Run(w, plan, origin, 1, []).0 ==
            TransferError(if w.context(1, Classifying) == Canceled then Cancelled
                          else if mentionsTls then TlsError else TransferFailed)
    ensures Run(w, plan, origin, 1, []).1 == [Exchange(1, 0, origin, Response(302, "%")), Close(0)]
  {
    var reply := w.server([], origin);
    assert Follows(plan, reply);
    assert [] + [Exchange(1, 0, origin, reply)] + [Close(0)] == [Exchange(1, 0, origin, reply), Close(0)];
  }

  // ---------- When an execution goes on, and when it ends ----------

  /** The last request, sent or not, before position `i` of the trace. */
  function Before(t: Trace, i: nat): int
    requires i <= |t|
  {
    if i > 0 && t[i - 1].Close? then i - 2 else i - 1
  }

  /** The event at `i` is a request, sent or not. */
  predicate IsRequest(t: Trace, i: int) {
    0 <= i < |t| && !t[i].Close?
  }

  /** The request ended its attempt with a response. */
  predicate Answered(plan: Plan, e: Event) {
    e.Exchange? && e.reply.Response? && !Follows(plan, e.reply)
  }

  /** Another attempt follows the one that ended with `e`: there is one left,
      the context is active, and the response, if there is one, is retryable. */
  predicate Retried(w: World, plan: Plan, e: Event)
    requires !e.Close?
  {
    && e.attempt <= plan.retry
    && (plan.retryDelay > 0 ==> w.context(e.attempt, Waiting) == Active)
    && if Answered(plan, e) then RetryableStatus(e.reply.status) else w.context(e.attempt, Checking) == Active
  }

  /** The code for an attempt that ended with `e` and without a response. */
  function FailureCode(w: World, plan: Plan, e: Event): Code
    requires !e.Close?
  {
    if w.context(e.attempt, Classifying) == Canceled || (e.Exchange? && e.reply == Failed(WireCanceled)) then Cancelled
    else if e.Unsent? then
      if w.build(e.request) == Some(true) then TlsError else TransferFailed
    else match e.reply
         case Failed(WireDeadline) => TimedOut
         case Failed(WireTls) => TlsError
         case Failed(_) => TransferFailed
         case Response(_, location) =>
           if e.hop == plan.maxRedirs then RedirectError
           else if w.resolve(e.request.url, location) == Err(true) then TlsError
           else TransferFailed
  }

  /** Why an execution with the trace `t` ended with this error: its final
      response could not be read, its last attempt failed and no other was
      allowed, or the context ended during the delay. */
  ghost predicate Explained(w: World, plan: Plan, code: Code, t: Trace) {
    && IsRequest(t, Before(t, |t|))
    && var e := t[Before(t, |t|)];
    if Answered(plan, e) && (e.attempt > plan.retry || !RetryableStatus(e.reply.status))
    then w.finish(t[..|t| - 1]) == Some(code)
    else if !Answered(plan, e) && (e.attempt > plan.retry || w.context(e.attempt, Checking) != Active)
    then code == FailureCode(w, plan, e)
    else
      && e.attempt <= plan.retry && plan.retryDelay > 0
      && (w.context(e.attempt, Waiting) == Canceled ==> code == Cancelled)
      && (w.context(e.attempt, Waiting) == Expired ==> code == TimedOut)
      && w.context(e.attempt, Waiting) != Active
  }

  ghost predicate AllJustified(w: World, plan: Plan, t: Trace) {
    forall j: nat :: j < |t| ==> RetryJustified(w, plan, t, j)
  }

  /** The execution ended rightly: a transfer was read without an error, and an
      error has its reason in the last attempt. */
  ghost predicate Ended(w: World, plan: Plan, verdict: Verdict, t: Trace) {
    match verdict
    case Transfer(_, _, _) => t != [] && w.finish(t[..|t| - 1]) == None
    case TransferError(code) => Explained(w, plan, code, t)
  }

  /** The request at `j` is the first of its attempt only if the attempt before
      it was to be retried. */
  ghost predicate RetryJustified(w: World, plan: Plan, t: Trace, j: nat) {
    IsRequest(t, j) && t[j].hop == 0 && t[j].attempt > 1 ==>
      && IsRequest(t, Before(t, j))
      && t[Before(t, j)].attempt == t[j].attempt - 1
      && Retried(w, plan, t[Before(t, j)])
  }

  /** What an attempt whose last request is `e` gave. */
  ghost predicate Gave(w: World, plan: Plan, e: Event, i: nat, o: Outcome) {
    && !e.Close?
    && match e
       case Unsent(_, _, request) => w.build(request).Some? && o == Lost(NotBuilt(w.build(request).value))
       case Exchange(_, hop, request, Failed(error)) => o == Lost(Wire(error))
       case Exchange(_, hop, request, Response(status, location)) =>
         if !Follows(plan, e.reply) then o == Received(i, status, hop)
         else if hop >= plan.maxRedirs then o == Lost(RedirectLimit)
         else
           && w.resolve(request.url, location).Err?
           && o == Lost(InvalidRedirect(w.resolve(request.url, location).error))
  }

  /** The trace after an attempt: its last request tells what it gave, and every
      new request continues the same attempt. */
  lemma {:induction false} AttemptGave(w: World, plan: Plan, n: nat, hop: nat, request: Request, t: Trace)
    requires hop <= plan.maxRedirs && AllJustified(w, plan, t)
    requires hop == 0 && n > 1 ==>
               IsRequest(t, Before(t, |t|)) && t[Before(t, |t|)].attempt == n - 1 && Retried(w, plan, t[Before(t, |t|)])
    ensures var (o, after) := Attempt(w, plan, n, hop, request, t);
            var i := Before(after, |after|);
            && IsRequest(after, i) && after[i].attempt == n && after[i].hop <= plan.maxRedirs
            && Gave(w, plan, after[i], i, o)
            && (o.Received? ==> i == |after| - 1)
            && AllJustified(w, plan, after)
    decreases plan.maxRedirs - hop
  {
    if w.build(request).None? {
      var reply := w.server(t, request);
      var sent := t + [Exchange(n, hop, request, reply)];
      JustifiedAppend(w, plan, t, Exchange(n, hop, request, reply));
      if Follows(plan, reply) {
        JustifiedAppend(w, plan, sent, Close(|t|));
        if hop < plan.maxRedirs && w.resolve(request.url, reply.location).Ok? {
          AttemptGave(w, plan, n, hop + 1, Next(w, request, reply), sent + [Close(|t|)]);
        }
      }
    } else {
      JustifiedAppend(w, plan, t, Unsent(n, hop, request));
    }
  }

  lemma {:induction false} JustifiedAppend(w: World, plan: Plan, t: Trace, e: Event)
    requires AllJustified(w, plan, t)
    requires !e.Close? && e.hop == 0 && e.attempt > 1 ==>
               && IsRequest(t, Before(t, |t|)) && t[Before(t, |t|)].attempt == e.attempt - 1
               && Retried(w, plan, t[Before(t, |t|)])
    ensures AllJustified(w, plan, t + [e])
  {
    var after := t + [e];
    forall j: nat | j < |after|
      ensures RetryJustified(w, plan, after, j)
    {
      assert j < |t| ==> RetryJustified(w, plan, t, j);
      assert Before(after, j) == Before(t, j);
    }
  }

  /** The decision after an attempt is the one that its last request calls for. */
  lemma {:induction false} DecideExplained(w: World, plan: Plan, n: nat, o: Outcome, t: Trace)
    requires 1 <= n <= plan.retry + 1
    requires var i := Before(t, |t|);
             && IsRequest(t, i) && t[i].attempt == n && t[i].hop <= plan.maxRedirs
             && Gave(w, plan, t[i], i, o) && (o.Received? ==> i == |t| - 1)
    ensures var (verdict, closed) := Decide(w, plan, n, o, t);
            && (verdict.Some? ==> Ended(w, plan, verdict.value, closed))
            && (verdict.None? ==>
                  && IsRequest(closed, Before(closed, |closed|)) && closed[Before(closed, |closed|)].attempt == n
                  && Retried(w, plan, closed[Before(closed, |closed|)]))
            && closed == if o.Received? then t + [Close(o.response)] else t
  {
    var i := Before(t, |t|);
    if o.Received? {
      var closed := t + [Close(o.response)];
      assert Before(closed, |closed|) == i && closed[i] == t[i];
      assert closed[..|closed| - 1] == t;
    }
  }

  lemma {:induction false} RunEnded(w: World, plan: Plan, origin: Request, n: nat, t: Trace)
    requires 1 <= n <= plan.retry + 1 && AllJustified(w, plan, t)
    requires n > 1 ==>
               IsRequest(t, Before(t, |t|)) && t[Before(t, |t|)].attempt == n - 1 && Retried(w, plan, t[Before(t, |t|)])
    ensures Ended(w, plan, Run(w, plan, origin, n, t).0, Run(w, plan, origin, n, t).1)
    ensures AllJustified(w, plan, Run(w, plan, origin, n, t).1)
    decreases plan.retry + 1 - n
  {
    var outcome, after, verdict, closed := RunTurn(w, plan, origin, n, t);
    AttemptGave(w, plan, n, 0, origin, t);
    DecideExplained(w, plan, n, outcome, after);
    if outcome.Received? {
      JustifiedAppend(w, plan, after, Close(outcome.response));
    }
    if verdict.None? {
      RunEnded(w, plan, origin, n + 1, closed);
    }
  }

  /** Against every world: an execution that returns an error has its reason in
      its last attempt, with the code that this attempt calls for; otherwise it
      goes on, and it goes on only where a retry is allowed. */
  lemma {:induction false} EndsRightly(w: World, plan: Plan, origin: Request)
    ensures var (verdict, t) := Run(w, plan, origin, 1, []);
            Ended(w, plan, verdict, t) && AllJustified(w, plan, t)
  {
    RunEnded(w, plan, origin, 1, []);
  }

  // ---------- One execution ----------

  /** One execution with its own client: what it returns, and all that could
      be observed of it. Nothing is sent when the request or the transport
      cannot be prepared. */
  method Execute(w: World, plan: Plan, prepared: Result<Request, Code>) returns (verdict: Verdict, trace: Trace)
    ensures prepared.Err? ==> verdict == TransferError(prepared.error) && trace == []
    ensures prepared.Ok? ==>
              && Owned(trace, {})
              && Requests(trace) <= (plan.retry + 1) * (plan.maxRedirs + 1)
              && AllLawful(w, plan, prepared.value, trace, plan.retry + 1)
              && Final(plan, verdict, trace)
              && Ended(w, plan, verdict, trace) && AllJustified(w, plan, trace)
    ensures prepared.Ok? && ReadsCleanly(w) ==>
              (verdict == TransferError(RedirectError) <==> LimitReached(w, plan, trace))
  {
    if prepared.Err? {
      return TransferError(prepared.error), [];
    }
    var client := new Client(w);
    verdict := client.Attempts(plan, prepared.value);
    trace := client.trace;
    ResponsesClosed(w, plan, prepared.value);
    RequestsBounded(w, plan, prepared.value);
    RequestsLawful(w, plan, prepared.value);
    TransferFinal(w, plan, prepared.value);
    EndsRightly(w, plan, prepared.value);
    if ReadsCleanly(w) {
      RedirectErrorExact(w, plan, prepared.value);
    }
  }
}
