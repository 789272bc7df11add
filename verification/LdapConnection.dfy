/** The LDAP connection object and its events: new requests, replies, drained and failed input,
    and the connection's timeouts.
 */
module LdapConnection {
  import opened LdapWire
  import opened LdapPipeline

  datatype Event =
    | NewRequest(typ: RequestType, multiEntry: bool, now: int)
    | Message(msgid: int, reply: Reply, now: int)
    | InputDrained                                   // nothing more to read
    | InputFailed(serverDown: bool, idleSecs: int)   // seconds since the previous reply
    | BindTimedOut
    | AbortTimerFired(now: int)
    | ConnectTimerFired
    | ConnectLater                                   // db_ldap_connect_delayed() at startup

  /** What can happen: timeouts fire only when set, the library delivers messages only while it has a
      handle, with an ID it has handed out or a positive one, and binds are not answered by entries. */
  predicate Possible(c: Conn, e: Event) {
    match e
    case Message(msgid, reply, now) =>
      && msgid >= 0 && c.open
      && forall i | 0 <= i < |c.queue| :: c.queue[i].msgid == msgid ==> !EntryForBind(c, i, reply)
    case BindTimedOut => c.timer.BindTimer?
    case AbortTimerFired(now) => c.timer.AbortTimer?
    case ConnectTimerFired => c.timer.ConnectTimer?
    case ConnectLater => c.delayed || (c.timer.NoTimer? && c.state.Disconnected?)
    case NewRequest(_, _, _) => true
    case InputDrained => true
    case InputFailed(_, _) => true
  }

  /** What a message leads to: the default bind is finished, a request is answered, or the connection is
      reopened because nobody asked. */
  ghost predicate Routed(c: Conn, msgid: int, reply: Reply, now: int, net: Conn -> Env, c': Conn)
    requires SentPrefix(c)
  {
    if msgid == c.defaultBind then BindFinished(c, reply.code.Success?, net, c')
    else if exists i :: 0 <= i < |c.queue| && c.queue[i].msgid == msgid then
      exists i :: 0 <= i < c.pending && c.queue[i].msgid == msgid && Answered(c, i, reply, now, net, c')
    else Reconnected(c, net(c).tls, net(c).bind, c')
  }

  /** db_ldap_handle_result() */
  method HandleMessage(c: Conn, msgid: int, reply: Reply, now: int, net: Conn -> Env) returns (c': Conn)
    requires Inv(c) && LibraryOk(net) && Possible(c, Message(msgid, reply, now))
    ensures Inv(c') && c'.submitted == c.submitted && Grows(c, c') && Attended(c')
    ensures Routed(c, msgid, reply, now, net, c')
  {
    if msgid == c.defaultBind {
      c' := DefaultBindReply(c, reply.code.Success?, net);
      return;
    }
    var found, idx := FindRequest(c, msgid);
    if found {
      c' := HandleReply(c, idx, reply, now, net);
    } else {
      assert EnvOk(c, net(c));
      c' := Reconnect(c, net(c).tls, net(c).bind);
    }
  }

  /** db_ldap_disconnect_timeout(): fails what has waited too long for a connection. */
  method HandleAbortTimer(c: Conn, now: int) returns (c': Conn)
    requires Inv(c) && c.timer.AbortTimer?
    ensures Inv(c') && c'.submitted == c.submitted && Grows(c, c') && Attended(c') && c'.state.Disconnected?
    ensures exists count: nat :: GivenUp(c, now, count, c')
  {
    assert c.pending == 0;
    var count;
    c', count := Abort(c, UINT_MAX, DISCONNECT_TIMEOUT_SECS, now);
    AbortedInv(c, count);
    if |c'.queue| == 0 {
      c' := c'.(timer := NoTimer);
    }
    assert GivenUp(c, now, count, c');
  }

  /** The requests at the front that have waited too long for a connection have failed, and no others. */
  ghost predicate GivenUp(c: Conn, now: int, count: nat, c': Conn) {
    && Overdue(c, count, UINT_MAX, DISCONNECT_TIMEOUT_SECS, now) && c'.state.Disconnected?
    && c'.queue == c.queue[count..] && c'.calls == Aborted(c, count).calls
    && c'.timer == if c'.queue == [] then NoTimer else AbortTimer
  }

  /** A request was submitted: the check for a hanging connection, and then one attempt to send. */
  ghost predicate Submitted(c: Conn, r: Request, now: int, net: Conn -> Env, count: nat, checked: Conn, again: bool,
                            c': Conn)
  {
    HangingChecked(c, now, net, count, checked) && Stepped(Joined(checked, r), net(Joined(checked, r)), c', again)
  }

  /** One attempt to connect, after which a handle whose StartTLS failed is left open. */
  ghost predicate Connected(c: Conn, tls: bool, bind: SendResult, c': Conn) {
    Reopened(c, c') && (c'.state.Binding? <==> tls && bind.Sent?) && (c'.open <==> (tls ==> bind.Sent?))
  }

  /** Whether a failed connection is reopened at once. */
  predicate ReopensAfter(c: Conn, serverDown: bool, idleSecs: int) {
    !serverDown || |c.queue| > 0 || idleSecs < IDLE_RECONNECT_SECS
  }

  /** What each event leads to. A queue that is settled stays so when a request is added, and is settled again once
      the input has been read. */
  ghost predicate Handled(c: Conn, e: Event, net: Conn -> Env, c': Conn)
    requires SentPrefix(c)
  {
    match e
    case NewRequest(typ, multiEntry, now) =>
      && (Settled(c) ==> Settled(c'))
      && exists count, checked, again ::
           Submitted(c, MakeRequest(c, typ, multiEntry, now), now, net, count, checked, again, c')
    case Message(msgid, reply, now) => Routed(c, msgid, reply, now, net, c')
    case InputDrained => Settled(c') && exists steps :: Sending(c, net, steps, c')
    case InputFailed(serverDown, idleSecs) =>
      if serverDown && c.queue == [] && idleSecs >= 60 then c' == Closed(c)
      else Reconnected(c, net(c).tls, net(c).bind, c')
    case BindTimedOut => c' == Closed(c)
    case AbortTimerFired(now) => exists count: nat :: GivenUp(c, now, count, c')
    case ConnectTimerFired => Connected(c, net(c).tls, net(c).bind, c')
    case ConnectLater => c' == c.(delayed := true, timer := ConnectTimer)
  }

  method Handle(c: Conn, e: Event, net: Conn -> Env) returns (c': Conn)
    requires Inv(c) && LibraryOk(net) && Possible(c, e)
    ensures Inv(c') && Grows(c, c')
    ensures c'.submitted == c.submitted + if e.NewRequest? then 1 else 0
    ensures Handled(c, e, net, c')
    // only a failing StartTLS leaves requests waiting without a timeout
    ensures Attended(c) && (forall x :: net(x).tls) ==> Attended(c')
  {
    match e {
      case NewRequest(typ, multiEntry, now) =>
        c' := HandleRequest(c, typ, multiEntry, now, net);
      case Message(msgid, reply, now) =>
        c' := HandleMessage(c, msgid, reply, now, net);
      case InputDrained =>
        ghost var steps;
        c', steps := SendAll(c, net);
      case InputFailed(serverDown, idleSecs) =>
        c' := HandleFailure(c, serverDown, idleSecs, net);
      case BindTimedOut =>
        assert c.state.Binding?;
        c' := CloseConn(c);
      case AbortTimerFired(now) =>
        c' := HandleAbortTimer(c, now);
      case ConnectTimerFired =>
        c' := HandleConnectTimer(c, net);
      case ConnectLater =>
        c' := c.(delayed := true, timer := ConnectTimer);
    }
  }

  method HandleRequest(c: Conn, typ: RequestType, multiEntry: bool, now: int, net: Conn -> Env) returns (c': Conn)
    requires Inv(c) && LibraryOk(net)
    ensures Inv(c') && Grows(c, c') && c'.submitted == c.submitted + 1
    ensures Handled(c, NewRequest(typ, multiEntry, now), net, c')
    ensures Attended(c) && (forall x :: net(x).tls) ==> Attended(c')
  {
    ghost var count, checked, again;
    c', count, checked, again := Submit(c, typ, multiEntry, now, net);
    assert Submitted(c, MakeRequest(c, typ, multiEntry, now), now, net, count, checked, again, c');
    assert (forall x :: net(x).tls) ==> net(Joined(checked, MakeRequest(c, typ, multiEntry, now))).tls;
  }

  /** The end of ldap_input() after an error. */
  method HandleFailure(c: Conn, serverDown: bool, idleSecs: int, net: Conn -> Env) returns (c': Conn)
    requires Inv(c) && LibraryOk(net)
    ensures Inv(c') && Grows(c, c') && c'.submitted == c.submitted && Attended(c')
    ensures Handled(c, InputFailed(serverDown, idleSecs), net, c')
  {
    assert EnvOk(c, net(c));
    if ReopensAfter(c, serverDown, idleSecs) {
      c' := Reconnect(c, net(c).tls, net(c).bind);
    } else {
      c' := CloseConn(c);
    }
  }

  /** db_ldap_connect_callback() */
  method HandleConnectTimer(c: Conn, net: Conn -> Env) returns (c': Conn)
    requires Inv(c) && LibraryOk(net) && c.timer.ConnectTimer?
    ensures Inv(c') && Grows(c, c') && c'.submitted == c.submitted && Handled(c, ConnectTimerFired, net, c')
    ensures net(c).tls ==> Attended(c')
  {
    assert EnvOk(c, net(c));
    assert c.state.Disconnected?;
    var ok;
    c', ok := Connect(c, net(c).tls, net(c).bind);
  }

  /** The object that owns the state. */
  class LdapConnection {
    var c: Conn

    ghost predicate Valid()
      reads this
    {
      Inv(c)
    }

    constructor ()
      ensures Valid() && c == NewConn()
    {
      c := NewConn();
      NewInv();
    }

    method Dispatch(e: Event, net: Conn -> Env)
      requires Valid() && LibraryOk(net) && Possible(c, e)
      modifies this
      ensures Valid() && c.submitted == old(c.submitted) + if e.NewRequest? then 1 else 0
      ensures Handled(old(c), e, net, c) && Grows(old(c), c)
    {
      c := Handle(c, e, net);
    }
  }

  // ----- whole runs

  /** One step of a run: the event is handled, or skipped if it cannot happen at its time. */
  ghost predicate Stepping(c: Conn, e: Event, net: Conn -> Env, c': Conn) {
    && Inv(c) && Inv(c') && Grows(c, c') && c'.submitted == c.submitted + (if e.NewRequest? then 1 else 0)
    && (Possible(c, e) || e.InputDrained? || e.InputFailed? ==> Handled(c, e, net, c'))
    && (!Possible(c, e) ==> c' == c)
  }

  ghost predicate StepOf(history: seq<Conn>, events: seq<(Event, Conn -> Env)>, k: nat)
    requires k < |events| && k + 1 < |history|
  {
    Stepping(history[k], events[k].0, events[k].1, history[k + 1])
  }

  method Next(c: Conn, e: Event, net: Conn -> Env) returns (c': Conn)
    requires Inv(c) && LibraryOk(net)
    ensures Stepping(c, e, net, c')
  {
    c' := c;
    if Possible(c, e) {
      c' := Handle(c, e, net);
    }
  }

  lemma HistoryNext(history: seq<Conn>, events: seq<(Event, Conn -> Env)>, n: nat, c: Conn, c': Conn)
    requires n < |events| && |history| == n + 1 && history[n] == c
    requires forall k: nat :: k < n ==> StepOf(history, events, k)
    requires Stepping(c, events[n].0, events[n].1, c')
    ensures forall k: nat :: k < n + 1 ==> StepOf(history + [c'], events, k)
  {
    forall k: nat | k < n + 1 ensures StepOf(history + [c'], events, k) {
      assert k < n ==> StepOf(history, events, k);
    }
  }

  /** Any run, with any library: the invariant holds throughout, and what was sent and called stays. */
  method Run(events: seq<(Event, Conn -> Env)>) returns (c: Conn, ghost history: seq<Conn>)
    requires forall i :: 0 <= i < |events| ==> LibraryOk(events[i].1)
    ensures Inv(c) && |history| == |events| + 1 && history[0] == NewConn() && history[|events|] == c
    ensures forall k: nat :: k < |events| ==> StepOf(history, events, k)
  {
    c := NewConn();
    history := [c];
    NewInv();
    for n := 0 to |events|
      invariant Inv(c) && |history| == n + 1 && history[0] == NewConn() && history[n] == c
      invariant forall k: nat :: k < n ==> StepOf(history, events, k)
    {
      ghost var before := c;
      c := Next(c, events[n].0, events[n].1);
      HistoryNext(history, events, n, before, c);
      history := history + [c];
    }
  }

  ghost function TerminalCount(calls: seq<Callback>, id: nat): nat {
    if calls == [] then 0
    else TerminalCount(calls[..|calls| - 1], id) +
         if Terminal(calls[|calls| - 1]) && calls[|calls| - 1].id == id then 1 else 0
  }

  lemma {:induction false} TerminalsCounted(calls: seq<Callback>, id: nat)
    requires forall k, l :: 0 <= k < l < |calls| && Terminal(calls[k]) ==> calls[l].id != calls[k].id
    ensures TerminalCount(calls, id) == if Finished(calls, id) then 1 else 0
  {
    if calls != [] {
      var n := |calls| - 1;
      var p := calls[..n];
      TerminalsCounted(p, id);
      assert p + [calls[n]] == calls;
      FinishedNext(p, calls[n], id);
    }
  }

  /** A submitted request has had no terminal callback while it is queued, and exactly one, after
      which it is never called again, once it is not; it was sent at most three times. */
  lemma EveryRequest(c: Conn, id: nat)
    requires Inv(c) && id < c.submitted
    ensures TerminalCount(c.calls, id) == if InQueue(c.queue, id) then 0 else 1
    ensures forall k, l :: 0 <= k < l < |c.calls| && Terminal(c.calls[k]) ==> c.calls[l].id != c.calls[k].id
    ensures SendCount(c.wire, id) <= MAX_ATTEMPTS
  {
    TerminalsCounted(c.calls, id);
  }

  /** The traffic of any run obeys section 4.2.1 of RFC 4511: nothing is sent while a bind is
      outstanding, and no bind while a search is; searches are sent only while bound to the default
      DN; and the requests of a connection are sent in submission order. At most nine are
      outstanding. */
  lemma EveryMessage(c: Conn, j: nat)
    requires Inv(c) && j < |c.wire| && IsSend(c.wire[j])
    ensures forall i: nat :: !BindOutstanding(c.wire, i, j)
    ensures IsBind(c.wire[j]) ==> forall i: nat :: !SearchOutstanding(c.wire, i, j)
    ensures c.wire[j].SendSearch? ==> exists i: nat :: BoundAsDefault(c.wire, i, j)
    ensures IsRequest(c.wire[j]) ==>
              forall i: nat :: SameConnection(c.wire, i, j) && IsRequest(c.wire[i]) ==> c.wire[i].id < c.wire[j].id
    ensures c.pending <= 9
  {
    forall i: nat ensures !BindOutstanding(c.wire, i, j) {
      NoSendDuringBind(c.wire, i, j);
    }
    if IsBind(c.wire[j]) {
      forall i: nat ensures !SearchOutstanding(c.wire, i, j) {
        NoBindDuringSearch(c.wire, i, j);
      }
    }
    if c.wire[j].SendSearch? {
      var i := SearchesAsDefault(c.wire, j);
    }
    if IsRequest(c.wire[j]) {
      forall i: nat | SameConnection(c.wire, i, j) && IsRequest(c.wire[i]) ensures c.wire[i].id < c.wire[j].id {
        SentInOrder(c.wire, i, j);
      }
    }
  }

  /** A run in which the invariant is lost: the server answers an auth bind with a search entry. The bind counts as
      done, but its request is still pending. */
  method EntryAnswersBind() returns (before: Conn, after: Conn)
    ensures Inv(before) && before.state.Binding? && before.pending == 1 && before.queue[0].typ.Bind?
    ensures !Inv(after) && after.state.BoundAuth? && after.pending == 1 && after.queue != [] && after.queue[0].typ.Bind?
  {
    before := PendingBind();
    var ok := (x: Conn) => Env(true, ConnProblem, ConnProblem, true, ConnProblem);
    after := HandleReply(before, 0, Reply(SearchEntry, Success), 0, ok);
  }

  /** A connection on which an auth bind was sent. */
  method PendingBind() returns (c: Conn)
    ensures Inv(c) && c.state.Binding? && c.pending == 1 && c.queue[0].typ.Bind?
  {
    NewInv();
    var ok;
    c, ok := BindDefault(NewConn(), Sent(1));
    DefaultBindReplyInv(c, true);
    c := c.(defaultBind := -1, timer := NoTimer, state := BoundDefault,
            wire := c.wire + [BindReply(c.defaultBind, true)]);
    var r := MakeRequest(c, Bind, false, 0);
    SubmittedInv(c, r);
    c := c.(queue := c.queue + [r], submitted := c.submitted + 1);
    SentInv(c, 2);
    c := MarkSent(c, 2);
  }

  /** A request left waiting without a timeout: the connection is new and StartTLS fails. */
  method WaitsUnattended() returns (c: Conn)
    ensures Inv(c) && !Attended(c) && |c.queue| == 1
  {
    NewInv();
    var down := (x: Conn) => Env(false, ConnProblem, ConnProblem, false, ConnProblem);
    ghost var count, checked, again;
    c, count, checked, again := Submit(NewConn(), Search, false, 0, down);
  }
}
