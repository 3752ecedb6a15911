/** The correlation-ID middleware and, inside it, the access-log middleware. */
module AccessLog {
  import opened Prelude

  type Headers = seq<(string, string)>

  datatype Message = Start(status: int, headers: Headers) | Body(more: bool) | OtherMessage

  // ------------------------------------------------------ correlation IDs

  predicate IdChar(c: char) {
    || 'A' <= c <= 'Z' || 'a' <= c <= 'z' || '0' <= c <= '9'
    || c == '.' || c == '_' || c == ':' || c == '-'
  }

  /** `_CORRELATION_ID_PATTERN.fullmatch` */
  predicate ValidId(s: string) {
    1 <= |s| <= 128 && forall i :: 0 <= i < |s| ==> IdChar(s[i])
  }

  /** `uuid4().hex` */
  predicate HexId(s: string) {
    |s| == 32 && forall i :: 0 <= i < |s| ==> '0' <= s[i] <= '9' || 'a' <= s[i] <= 'f'
  }

  /** The headers without the given name, in order. */
  function Others(headers: Headers, name: string): Headers {
    if headers == [] then []
    else
      Others(headers[..|headers| - 1], name) +
      if headers[|headers| - 1].0 == name then [] else [headers[|headers| - 1]]
  }

  function Values(headers: Headers, name: string): seq<string> {
    if headers == [] then []
    else
      Values(headers[..|headers| - 1], name) +
      if headers[|headers| - 1].0 == name then [headers[|headers| - 1].1] else []
  }

  lemma HeadersSnoc(headers: Headers, h: (string, string), name: string)
    ensures Values(headers + [h], name) == Values(headers, name) + if h.0 == name then [h.1] else []
    ensures Others(headers + [h], name) == Others(headers, name) + if h.0 == name then [] else [h]
  {
    assert (headers + [h])[..|headers|] == headers;
  }

  /** `MutableHeaders[name] = value`: the first entry is replaced, others go. */
  method SetHeader(headers: Headers, name: string, value: string) returns (r: Headers)
    ensures Values(r, name) == [value]
    ensures Others(r, name) == Others(headers, name)
  {
    r := [];
    var found := false;
    for i := 0 to |headers|
      invariant Values(r, name) == if found then [value] else []
      invariant Others(r, name) == Others(headers[..i], name)
    {
      assert headers[..i + 1] == headers[..i] + [headers[i]];
      HeadersSnoc(headers[..i], headers[i], name);
      if headers[i].0 != name {
        HeadersSnoc(r, headers[i], name);
        r := r + [headers[i]];
      } else if !found {
        HeadersSnoc(r, (name, value), name);
        r := r + [(name, value)];
        found := true;
      }
    }
    assert headers[..|headers|] == headers;
    if !found {
      HeadersSnoc(r, (name, value), name);
      r := r + [(name, value)];
    }
  }

  class CorrelationIdMiddleware {
    const headerName: string
    const id: string
    var sent: seq<Message>

    /** The ID is the incoming one if it matches the pattern, else a fresh one. */
    constructor (headerName: string, incoming: Option<string>, fresh': string)
      requires HexId(fresh')
      ensures sent == [] && this.headerName == headerName
      ensures ValidId(id)
      ensures incoming.Some? && ValidId(incoming.value) ==> id == incoming.value
      ensures incoming.None? || !ValidId(incoming.value) ==> id == fresh'
    {
      this.headerName := headerName;
      id := if incoming.Some? && ValidId(incoming.value) then incoming.value else fresh';
      sent := [];
    }

    /** A message that reaches the server; a failing send raises instead. */
    method Send(m: Message, fails: bool)
      modifies this
      ensures fails ==> sent == old(sent)
      ensures !fails ==>
        && |sent| == |old(sent)| + 1 && sent[..|old(sent)|] == old(sent)
        && Forwarded(m, sent[|old(sent)|])
    {
      var out := m;
      if m.Start? {
        var headers := SetHeader(m.headers, headerName, id);
        out := m.(headers := headers);
      }
      if !fails {
        sent := sent + [out];
      }
    }

    ghost predicate Forwarded(m: Message, out: Message) {
      if m.Start? then
        && out.Start? && out.status == m.status
        && Values(out.headers, headerName) == [id]
        && Others(out.headers, headerName) == Others(m.headers, headerName)
      else out == m
    }
  }

  // ------------------------------------------------------ the access log

  datatype Request = Request(method': string, path: string)

  /** What the application does: it sends, and routing sets the matched route. */
  datatype Action = Send(message: Message, fails: bool) | Route(path: string)

  datatype Record = Record(
    method': string, route: string, status: int, error: bool, correlationId: string)

  /** The first final body message whose send succeeds. */
  function Completion(actions: seq<Action>): (r: Option<nat>)
    ensures r.Some? ==>
      r.value < |actions| && actions[r.value] == Send(Body(false), false)
      && forall i :: 0 <= i < r.value ==> actions[i] != Send(Body(false), false)
    ensures r.None? ==> forall i :: 0 <= i < |actions| ==> actions[i] != Send(Body(false), false)
  {
    if actions == [] then None
    else
      var before := Completion(actions[..|actions| - 1]);
      if before.Some? then before
      else if actions[|actions| - 1] == Send(Body(false), false) then Some(|actions| - 1)
      else None
  }

  /** The status of the last response start, sent or not; 500 without one. */
  function LastStatus(actions: seq<Action>): int {
    if actions == [] then 500
    else
      match actions[|actions| - 1]
      case Send(Start(status, _), _) => status
      case _ => LastStatus(actions[..|actions| - 1])
  }

  /** The matched route's path, if there is one and it is not empty. */
  function RouteOf(request: Request, actions: seq<Action>): string {
    if actions == [] then request.path
    else
      match actions[|actions| - 1]
      case Route(path) => if path != "" then path else request.path
      case Send(_, _) => RouteOf(request, actions[..|actions| - 1])
  }

  /** The messages whose send succeeds. */
  function Delivered(actions: seq<Action>): seq<Message> {
    if actions == [] then []
    else
      Delivered(actions[..|actions| - 1]) +
      match actions[|actions| - 1]
      case Send(m, false) => [m]
      case _ => []
  }

  predicate Suppressed(logHealth: bool, route: string) {
    !logHealth && "/health/" <= route
  }

  /** The record written after `actions`, unless the route is suppressed. */
  function RecordAfter(
      request: Request, actions: seq<Action>, failed: bool, logHealth: bool, id: string): seq<Record> {
    var route := RouteOf(request, actions);
    if Suppressed(logHealth, route) then []
    else [Record(request.method', route, LastStatus(actions), failed || LastStatus(actions) >= 400, id)]
  }

  /**
   * All records of one request: one at completion, that is at the first final
   * body that goes out, or else one if an exception escapes.
   */
  function Expected(
      request: Request, actions: seq<Action>, raises: bool, logHealth: bool, id: string): (r: seq<Record>)
    ensures |r| <= 1
    ensures |r| == 1 ==> r[0].correlationId == id
  {
    var at := Completion(actions);
    if at.Some? then RecordAfter(request, actions[..at.value], false, logHealth, id)
    else if raises then RecordAfter(request, actions, true, logHealth, id)
    else []
  }

  /** One more action adds a record exactly if it completes the request. */
  lemma ExpectedStep(request: Request, actions: seq<Action>, logHealth: bool, id: string)
    requires actions != []
    ensures var before, last := actions[..|actions| - 1], actions[|actions| - 1];
      Expected(request, actions, false, logHealth, id) == Expected(request, before, false, logHealth, id) +
        if last == Send(Body(false), false) && Completion(before).None?
        then RecordAfter(request, before, false, logHealth, id) else []
  {
    var before := actions[..|actions| - 1];
    var at := Completion(before);
    if at.Some? {
      assert before[..at.value] == actions[..at.value];
    }
  }

  class AccessLogMiddleware {
    const request: Request
    const logHealth: bool
    const outer: CorrelationIdMiddleware
    var route: Option<string>
    var statusCode: int
    var logged: bool
    var records: seq<Record>

    constructor (request: Request, logHealth: bool, outer: CorrelationIdMiddleware)
      ensures this.request == request && this.logHealth == logHealth && this.outer == outer
      ensures route == None && statusCode == 500 && !logged && records == []
    {
      this.request := request;
      this.logHealth := logHealth;
      this.outer := outer;
      route := None;
      statusCode := 500;
      logged := false;
      records := [];
    }

    function CurrentRoute(): string
      reads this
    {
      if route.Some? && route.value != "" then route.value else request.path
    }

    method WriteLog(failed: bool)
      modifies this`logged, this`records
      ensures logged
      ensures records == old(records) +
        if old(logged) || Suppressed(logHealth, CurrentRoute()) then []
        else [Record(request.method', CurrentRoute(), statusCode, failed || statusCode >= 400, outer.id)]
    {
      if logged {
        return;
      }
      logged := true;
      var path := CurrentRoute();
      if !logHealth && "/health/" <= path {
        return;
      }
      records := records + [Record(request.method', path, statusCode, failed || statusCode >= 400, outer.id)];
    }

    method SendWithAccessLog(m: Message, fails: bool)
      modifies this`statusCode, this`logged, this`records, outer
      ensures statusCode == if m.Start? then m.status else old(statusCode)
      ensures logged == (old(logged) || (m == Body(false) && !fails))
      ensures records == old(records) +
        if m == Body(false) && !fails && !old(logged) && !Suppressed(logHealth, CurrentRoute())
        then [Record(request.method', CurrentRoute(), statusCode, statusCode >= 400, outer.id)] else []
      ensures fails ==> outer.sent == old(outer.sent)
      ensures !fails ==>
        && |outer.sent| == |old(outer.sent)| + 1 && outer.sent[..|old(outer.sent)|] == old(outer.sent)
        && outer.Forwarded(m, outer.sent[|old(outer.sent)|])
    {
      if m.Start? {
        statusCode := m.status;
      }
      outer.Send(m, fails);
      if fails {
        return;
      }
      if m.Body? && !m.more {
        WriteLog(false);
      }
    }

    /** The state after the application has acted as in `actions`. */
    ghost predicate After(actions: seq<Action>)
      reads this, outer
    {
      && statusCode == LastStatus(actions)
      && CurrentRoute() == RouteOf(request, actions)
      && (logged <==> Completion(actions).Some?)
      && records == Expected(request, actions, false, logHealth, outer.id)
      && |outer.sent| == |Delivered(actions)|
      && forall k :: 0 <= k < |outer.sent| ==> outer.Forwarded(Delivered(actions)[k], outer.sent[k])
    }

    method Act(a: Action, ghost before: seq<Action>)
      requires After(before)
      modifies this, outer
      ensures After(before + [a])
    {
      assert (before + [a])[..|before|] == before;
      ExpectedStep(request, before + [a], logHealth, outer.id);
      match a
      case Send(m, fails) => SendWithAccessLog(m, fails);
      case Route(path) => route := Some(path);
    }

    /**
     * A whole request: the application acts, reacting to failing sends in any
     * way, and then returns or raises.
     */
    method Call(actions: seq<Action>, raises: bool)
      requires route == None && statusCode == 500 && !logged && records == [] && outer.sent == []
      modifies this, outer
      ensures records == Expected(request, actions, raises, logHealth, outer.id)
      ensures |outer.sent| == |Delivered(actions)|
      ensures forall i :: 0 <= i < |outer.sent| ==> outer.Forwarded(Delivered(actions)[i], outer.sent[i])
    {
      for i := 0 to |actions|
        invariant After(actions[..i])
      {
        assert actions[..i + 1] == actions[..i] + [actions[i]];
        Act(actions[i], actions[..i]);
      }
      assert actions[..|actions|] == actions;
      if raises {
        WriteLog(true);
      }
    }
  }

  /** What happened before the point at which the request is logged, if it is. */
  function BeforeLog(actions: seq<Action>): seq<Action> {
    if Completion(actions).Some? then actions[..Completion(actions).value] else actions
  }

  /** `route` is that of the last match, or the request's path without a (named) one. */
  ghost predicate Matched(request: Request, actions: seq<Action>, route: string) {
    || ((forall a :: a in actions ==> !a.Route?) && route == request.path)
    || exists k :: LastMatch(actions, k)
         && route == if actions[k].path != "" then actions[k].path else request.path
  }

  predicate LastMatch(actions: seq<Action>, k: int) {
    && 0 <= k < |actions| && actions[k].Route?
    && forall i :: k < i < |actions| ==> !actions[i].Route?
  }

  lemma {:induction false} RouteMatches(request: Request, actions: seq<Action>)
    ensures Matched(request, actions, RouteOf(request, actions))
  {
    if actions != [] {
      var init, last := actions[..|actions| - 1], actions[|actions| - 1];
      if last.Route? {
        assert LastMatch(actions, |actions| - 1);
      } else {
        RouteMatches(request, init);
        assert actions == init + [last];
        if k :| LastMatch(init, k) {
          assert LastMatch(actions, k);
        }
      }
    }
  }

  /**
   * A request is logged exactly if a final body went out or an exception
   * escaped, unless health requests are not logged and the route matched by
   * then is one; its outcome is an error exactly if no final body went out or
   * the status says so.
   */
  lemma LoggedIff(request: Request, actions: seq<Action>, raises: bool, logHealth: bool, id: string)
      returns (route: string)
    ensures Matched(request, BeforeLog(actions), route)
    ensures var r := Expected(request, actions, raises, logHealth, id);
      var done := exists i :: 0 <= i < |actions| && actions[i] == Send(Body(false), false);
      && (|r| == 1 <==> (done || raises) && (logHealth || !("/health/" <= route)))
      && (|r| == 1 ==>
            && r[0].method' == request.method' && r[0].route == route
            && (r[0].error <==> !done || r[0].status >= 400))
  {
    route := RouteOf(request, BeforeLog(actions));
    RouteMatches(request, BeforeLog(actions));
  }

  predicate IsStart(a: Action) {
    a.Send? && a.message.Start?
  }

  lemma {:induction false} NoStart(actions: seq<Action>)
    requires forall i :: 0 <= i < |actions| ==> !IsStart(actions[i])
    ensures LastStatus(actions) == 500
  {
    if actions != [] {
      NoStart(actions[..|actions| - 1]);
    }
  }

  predicate LastStart(actions: seq<Action>, k: nat) {
    && k < |actions| && IsStart(actions[k])
    && forall i :: k < i < |actions| ==> !IsStart(actions[i])
  }

  lemma {:induction false} LastStartWins(actions: seq<Action>, k: nat)
    requires LastStart(actions, k)
    ensures LastStatus(actions) == actions[k].message.status
  {
    if k < |actions| - 1 {
      LastStartWins(actions[..|actions| - 1], k);
    }
  }

  /**
   * The logged status is that of the last response start before the record is
   * written, even one whose send failed, or 500 without any.
   */
  lemma LoggedStatus(request: Request, actions: seq<Action>, raises: bool, logHealth: bool, id: string)
    requires |Expected(request, actions, raises, logHealth, id)| == 1
    ensures var r, before := Expected(request, actions, raises, logHealth, id)[0], BeforeLog(actions);
      && ((forall a :: a in before ==> !IsStart(a)) ==> r.status == 500)
      && (forall k :: 0 <= k < |before| && LastStart(before, k) ==> r.status == before[k].message.status)
  {
    var before := BeforeLog(actions);
    if forall a :: a in before ==> !IsStart(a) {
      NoStart(before);
    }
    forall k | 0 <= k < |before| && LastStart(before, k)
      ensures LastStatus(before) == before[k].message.status
    {
      LastStartWins(before, k);
    }
  }

  /** Nothing that happens after completion changes the log. */
  lemma CompletionFixesLog(
      request: Request, actions: seq<Action>, more: seq<Action>, raises: bool, logHealth: bool, id: string)
    requires Completion(actions).Some?
    ensures Expected(request, actions + more, raises, logHealth, id)
         == Expected(request, actions, false, logHealth, id)
  {
    var at, at' := Completion(actions).value, Completion(actions + more);
    assert (actions + more)[at] == actions[at];
    assert forall i :: 0 <= i < at ==> (actions + more)[i] == actions[i];
    assert at'.Some? && at'.value == at;
    assert (actions + more)[..at] == actions[..at];
  }
}
