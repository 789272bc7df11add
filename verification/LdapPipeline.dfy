/** The LDAP request pipeline: one connection object with a queue of requests, of which a prefix
    has been sent. The wire traffic and the callbacks made so far are part of the state, so that
    the invariant can speak about whole runs.
 */
module LdapPipeline {
  import opened Options
  import opened LdapWire

  const MAX_PENDING := 8
  const MAX_ATTEMPTS := 3
  const LOST_TIMEOUT_SECS := 60
  const DISCONNECT_TIMEOUT_SECS := 4
  const IDLE_RECONNECT_SECS := 60
  const UINT_MAX := 0xffff_ffff

  datatype RequestType = Search | Bind

  datatype Request = Request(
    id: nat, typ: RequestType, multiEntry: bool,
    msgid: int,          // -1: not sent
    created: int, sends: nat, failed: bool,
    saved: bool)         // an entry is kept until the final reply

  datatype ConnState = Disconnected | Binding | BoundAuth | BoundDefault

  /** What the connection's one timeout is for. */
  datatype Timer = NoTimer | ConnectTimer | BindTimer | AbortTimer

  /** A request's callback: with an entry, with the final reply, or with NULL. */
  datatype Callback = Entry(id: nat) | Final(id: nat) | Null(id: nat)

  datatype Conn = Conn(
    state: ConnState, defaultBind: int, queue: seq<Request>, pending: nat,
    open: bool, delayed: bool, timer: Timer,
    wire: seq<Wire>, calls: seq<Callback>, submitted: nat)

  /** Outcome of handing a message to the LDAP library. */
  datatype SendResult = Sent(msgid: int) | BadInput | ConnProblem

  /** The library's answers during one attempt to send: StartTLS and the default bind if a connection
      is needed, the request itself, and StartTLS and the default bind of a reconnect. */
  datatype Env = Env(tls: bool, bind: SendResult, send: SendResult, tlsAgain: bool, bindAgain: SendResult)

  function NewConn(): Conn {
    Conn(Disconnected, -1, [], 0, true, false, NoTimer, [Open], [], 0)
  }

  // ----- the invariant

  predicate Terminal(cb: Callback) {
    !cb.Entry?
  }

  /** The sent requests are exactly the first `pending` ones. */
  ghost predicate SentPrefix(c: Conn) {
    && c.pending <= |c.queue|
    && forall i :: 0 <= i < |c.queue| ==> (c.queue[i].msgid != -1 <==> i < c.pending)
  }

  ghost predicate InQueue(q: seq<Request>, id: nat) {
    exists i :: 0 <= i < |q| && q[i].id == id
  }

  ghost predicate Finished(calls: seq<Callback>, id: nat) {
    exists k :: 0 <= k < |calls| && Terminal(calls[k]) && calls[k].id == id
  }

  /** Every submitted request is either queued or has had its terminal callback, which is its last
      one; the queue is in submission order. */
  ghost predicate Ledger(c: Conn) {
    && (forall i, j :: 0 <= i < j < |c.queue| ==> c.queue[i].id < c.queue[j].id)
    && (forall i :: 0 <= i < |c.queue| ==> c.queue[i].id < c.submitted)
    && (forall k :: 0 <= k < |c.calls| ==> c.calls[k].id < c.submitted)
    && (forall id: nat :: id < c.submitted ==> (InQueue(c.queue, id) <==> !Finished(c.calls, id)))
    && (forall k, l :: 0 <= k < l < |c.calls| && Terminal(c.calls[k]) ==> c.calls[l].id != c.calls[k].id)
  }

  ghost predicate Sends(c: Conn) {
    && (forall i :: 0 <= i < |c.queue| ==> SendCount(c.wire, c.queue[i].id) == c.queue[i].sends)
    && (forall id: nat :: SendCount(c.wire, id) <= MAX_ATTEMPTS)
    && (forall id: nat :: id >= c.submitted ==> SendCount(c.wire, id) == 0)
  }

  /** Only plain searches keep an entry or fail half-way; iterations and binds never do. */
  ghost predicate Flags(c: Conn) {
    forall i :: 0 <= i < |c.queue| ==>
      && (c.queue[i].failed ==> c.queue[i].typ.Search? && !c.queue[i].multiEntry)
      && (c.queue[i].saved ==> c.queue[i].typ.Search? && !c.queue[i].multiEntry)
  }

  /** What holds even between aborting sent requests and closing the connection. */
  ghost predicate Base(c: Conn) {
    && SentPrefix(c) && Ledger(c) && Sends(c) && Flags(c)
    && Monitor(c.wire).Some? && Monitor(c.wire).value.open == c.open
  }

  /** The connection state fixes what is outstanding. */
  ghost predicate States(c: Conn)
    requires c.pending <= |c.queue|
  {
    && (c.state.Disconnected? ==> c.pending == 0 && c.defaultBind == -1)
    && (c.state.Binding? ==> if c.defaultBind != -1 then c.pending == 0
                             else c.pending == 1 && c.queue[0].typ.Bind?)
    && (c.state.BoundAuth? ==> c.pending == 0 && c.defaultBind == -1)
    && (c.state.BoundDefault? ==>
          c.defaultBind == -1 && forall i :: 0 <= i < c.pending ==> c.queue[i].typ.Search?)
    && (!c.state.Disconnected? ==> c.open)
    && c.pending <= MAX_PENDING + 1
  }

  ghost predicate Msgids(c: Conn)
    requires c.pending <= |c.queue|
  {
    && (forall i :: 0 <= i < c.pending ==> c.queue[i].msgid >= 0)
    && (forall i, j :: 0 <= i < j < c.pending ==> c.queue[i].msgid != c.queue[j].msgid)
    && c.defaultBind >= -1
  }

  ghost predicate Timers(c: Conn) {
    && (c.timer.BindTimer? ==> c.state.Binding? && c.defaultBind != -1)
    && (c.timer.AbortTimer? ==> c.state.Disconnected?)
    && (c.delayed <==> c.timer.ConnectTimer?)
    && (c.delayed ==> c.state.Disconnected?)
  }

  ghost function SearchIds(q: seq<Request>, n: nat): set<int>
    requires n <= |q|
  {
    set i | 0 <= i < n && q[i].typ.Search? :: q[i].msgid
  }

  ghost function ExpectedBind(c: Conn): Option<(int, Identity)> {
    if !c.state.Binding? then None
    else if c.defaultBind != -1 then Some((c.defaultBind, DefaultDn))
    else if c.pending > 0 && |c.queue| > 0 then Some((c.queue[0].msgid, AuthDn)) else None
  }

  ghost function ExpectedIdentity(state: ConnState): Identity {
    match state
    case Disconnected => Anonymous
    case Binding => Anonymous
    case BoundAuth => AuthDn
    case BoundDefault => DefaultDn
  }

  /** The server is where the client believes it is. */
  ghost predicate InStep(c: Conn)
    requires c.pending <= |c.queue|
  {
    && Monitor(c.wire).Some?
    && var s := Monitor(c.wire).value;
       && s.open == c.open && s.bind == ExpectedBind(c) && s.searches == SearchIds(c.queue, c.pending)
       && s.identity == ExpectedIdentity(c.state)
       && forall i :: c.pending <= i < |c.queue| ==> c.queue[i].id > s.last
  }

  ghost predicate Inv(c: Conn) {
    Base(c) && States(c) && Msgids(c) && Timers(c) && InStep(c)
  }

  /** What was sent and called stays so: `wire` and `calls` are the whole history. */
  ghost predicate Grows(c: Conn, c': Conn) {
    c.wire <= c'.wire && c.calls <= c'.calls
  }

  /** While disconnected, waiting requests have a timeout that will fail them or connect. */
  ghost predicate Attended(c: Conn) {
    c.state.Disconnected? && c.queue != [] ==> !c.timer.NoTimer?
  }

  lemma NewInv()
    ensures Inv(NewConn())
  {
    var w := [Open];
    assert w[..0] == [];
    assert Monitor(w) == Some(CLOSED.(open := true));
    assert forall id: nat :: SendCount(w, id) == 0;
  }

  // ----- closing and connecting

  ghost function Unsent(q: seq<Request>, n: nat): seq<Request>
    requires n <= |q|
  {
    seq(|q|, i requires 0 <= i < |q| => if i < n then q[i].(msgid := -1) else q[i])
  }

  ghost function Closed(c: Conn): Conn
    requires c.pending <= |c.queue|
  {
    c.(state := Disconnected, delayed := false, defaultBind := -1,
       queue := Unsent(c.queue, c.pending), pending := 0, open := false,
       wire := if c.open then c.wire + [Close] else c.wire,
       timer := if |c.queue| > 0 then AbortTimer else NoTimer)
  }

  /** db_ldap_conn_close(): the sent requests go back to being queued, in place. */
  method CloseConn(c: Conn) returns (c': Conn)
    requires Base(c)
    ensures c' == Closed(c) && Inv(c') && Grows(c, c') && Attended(c')
  {
    var queue := c.queue;
    var i := 0;
    while i < c.pending
      invariant 0 <= i <= c.pending && queue == Unsent(c.queue, i)
    {
      assert queue[i].msgid != -1;
      queue := queue[i := queue[i].(msgid := -1)];
      i := i + 1;
    }
    c' := c.(state := Disconnected, delayed := false, defaultBind := -1, queue := queue, pending := 0, open := false,
             wire := if c.open then c.wire + [Close] else c.wire,
             timer := if |queue| > 0 then AbortTimer else NoTimer);
    ClosedInv(c);
  }

  lemma ClosedInv(c: Conn)
    requires Base(c)
    ensures Inv(Closed(c))
  {
    var c' := Closed(c);
    LedgerKept(c, c');
    if c.open {
      SendsKept(c, c', Close);
    }
    ClosedMonitor(c);
  }

  // ----- what a step that keeps the queue's requests does not disturb

  ghost predicate SameIds(q: seq<Request>, q': seq<Request>) {
    && |q| == |q'|
    && forall i :: 0 <= i < |q| ==> q'[i].id == q[i].id
  }

  /** The same requests with the same send counts. */
  ghost predicate SameRequests(q: seq<Request>, q': seq<Request>) {
    && |q| == |q'|
    && forall i :: 0 <= i < |q| ==> q'[i].id == q[i].id && q'[i].sends == q[i].sends
  }

  lemma LedgerKept(c: Conn, c': Conn)
    requires Ledger(c) && SameIds(c.queue, c'.queue) && c'.calls == c.calls && c'.submitted == c.submitted
    ensures Ledger(c')
  {
    forall id: nat ensures InQueue(c'.queue, id) <==> InQueue(c.queue, id) {
      assert forall i :: 0 <= i < |c.queue| ==> (c'.queue[i].id == id <==> c.queue[i].id == id);
    }
  }

  lemma SendsKept(c: Conn, c': Conn, e: Wire)
    requires Sends(c) && SameRequests(c.queue, c'.queue) && c'.submitted >= c.submitted
    requires c'.wire == c.wire + [e] && !IsRequest(e)
    ensures Sends(c')
  {
    forall id: nat ensures SendCount(c'.wire, id) == SendCount(c.wire, id) {
      SendCountNext(c.wire, e, id);
    }
  }

  /** A handle that is not open has seen no traffic since it was closed. */
  lemma ClosedMonitor(c: Conn)
    requires Monitor(c.wire).Some? && Monitor(c.wire).value.open == c.open && c.pending <= |c.queue|
    ensures Monitor(Closed(c).wire) == Some(CLOSED)
  {
    MonitorNext(c.wire, Close);
    NotOpen(c.wire);
  }

  lemma {:induction false} NotOpen(w: seq<Wire>)
    requires Monitor(w).Some?
    ensures !Monitor(w).value.open ==> Monitor(w).value == CLOSED
  {
    if w != [] {
      NotOpen(w[..|w| - 1]);
    }
  }

  // ----- binding and connecting

  /** db_ldap_bind_simple(): the default bind is sent, or the connection is closed. */
  method BindDefault(c: Conn, bind: SendResult) returns (c': Conn, ok: bool)
    requires Inv(c) && !c.state.Binding? && c.defaultBind == -1 && c.pending == 0 && c.open && !c.delayed
    requires bind.Sent? ==> bind.msgid >= 0
    ensures Inv(c') && !c'.delayed && Grows(c, c') && Attended(c')
    ensures ok == bind.Sent?
    ensures c'.submitted == c.submitted && c'.calls == c.calls
    ensures ok ==> c'.state.Binding? && c'.queue == c.queue && Offline(c')
    ensures !ok ==> c' == Closed(c)
  {
    if bind.Sent? {
      c' := c.(state := Binding, defaultBind := bind.msgid, timer := BindTimer,
               wire := c.wire + [SendDefaultBind(bind.msgid)]);
      BindDefaultInv(c, c', bind.msgid);
      ok := true;
    } else {
      c' := CloseConn(c);
      ok := false;
    }
  }

  lemma BindDefaultInv(c: Conn, c': Conn, msgid: int)
    requires Inv(c) && !c.state.Binding? && c.defaultBind == -1 && c.pending == 0 && c.open && !c.delayed
    requires msgid >= 0
    requires c' == c.(state := Binding, defaultBind := msgid, timer := BindTimer,
                      wire := c.wire + [SendDefaultBind(msgid)])
    ensures Inv(c')
  {
    SendsKept(c, c', SendDefaultBind(msgid));
    MonitorNext(c.wire, SendDefaultBind(msgid));
    assert SearchIds(c.queue, 0) == {};
  }

  /** db_ldap_connect(). If StartTLS fails the connection is left as it is, and requests wait without a timeout
      unless there is one to abort them. */
  method Connect(c: Conn, tls: bool, bind: SendResult) returns (c': Conn, ok: bool)
    requires Inv(c) && (bind.Sent? ==> bind.msgid >= 0)
    ensures Inv(c') && Grows(c, c')
    ensures c'.submitted == c.submitted && c'.calls == c.calls && SameRequests(c.queue, c'.queue)
    ensures !Attended(c') <==> c.state.Disconnected? && !tls && c.queue != [] && !c.timer.AbortTimer?
    ensures !c.state.Disconnected? ==> ok && c' == c
    ensures c.state.Disconnected? ==> ok == (tls && bind.Sent?)
    ensures c.state.Disconnected? && ok ==> c'.state.Binding? && c'.queue == c.queue && Offline(c')
    ensures !ok ==> c'.state.Disconnected?
    ensures c.state.Disconnected? ==> (c'.open <==> (tls ==> bind.Sent?))
  {
    if !c.state.Disconnected? {
      return c, true;
    }
    c' := OpenHandle(c);
    if !tls {
      return c', false;
    }
    c', ok := BindDefault(c', bind);
  }

  /** A pending delayed connect is cancelled, and a handle is created if there is none. */
  method OpenHandle(c: Conn) returns (c': Conn)
    requires Inv(c) && c.state.Disconnected?
    ensures Inv(c') && Grows(c, c')
    ensures c' == c.(delayed := false, timer := if c.delayed then NoTimer else c.timer, open := true, wire := c'.wire)
  {
    c' := c;
    if c'.delayed {
      c' := c'.(delayed := false, timer := NoTimer);
    }
    if !c'.open {
      var c1 := c'.(open := true, wire := c'.wire + [Open]);
      OpenInv(c', c1);
      c' := c1;
    }
  }

  lemma OpenInv(c: Conn, c': Conn)
    requires Inv(c) && c.state.Disconnected? && !c.open
    requires c' == c.(open := true, wire := c.wire + [Open])
    ensures Inv(c')
  {
    SendsKept(c, c', Open);
    MonitorNext(c.wire, Open);
    assert SearchIds(c.queue, 0) == {};
  }

  lemma ClosedRequests(c: Conn)
    requires c.pending <= |c.queue|
    ensures SameRequests(c.queue, Closed(c).queue)
  {
  }

  /** ldap_conn_reconnect() */
  method Reconnect(c: Conn, tls: bool, bind: SendResult) returns (c': Conn)
    requires Base(c) && (bind.Sent? ==> bind.msgid >= 0)
    ensures Inv(c') && Grows(c, c') && Attended(c') && c'.submitted == c.submitted
    ensures Reconnected(c, tls, bind, c')
  {
    c' := CloseConn(c);
    ClosedRequests(c);
    var ok;
    c', ok := Connect(c', tls, bind);
    if !ok {
      assert c'.pending == 0;
      ClosedRequests(c');
      c' := CloseConn(c');
    }
  }

  // ----- sending

  ghost predicate FreshMsgid(c: Conn, msgid: int) {
    msgid >= 0 && forall i :: 0 <= i < |c.queue| ==> c.queue[i].msgid != msgid
  }

  /** The library hands out message IDs that are not in use. */
  ghost predicate EnvOk(c: Conn, env: Env) {
    && (env.bind.Sent? ==> env.bind.msgid >= 0)
    && (env.bindAgain.Sent? ==> env.bindAgain.msgid >= 0)
    && (env.send.Sent? ==> FreshMsgid(c, env.send.msgid))
  }

  /** It is the next request's turn: to be sent, or to be dropped if it was sent too often. */
  ghost predicate Due(c: Conn) {
    && c.pending < |c.queue| && c.pending <= MAX_PENDING
    && if c.queue[c.pending].typ.Bind? then c.pending == 0 && (c.state.BoundAuth? || c.state.BoundDefault?)
       else c.state.BoundDefault?
  }

  /** The next request may be sent now. */
  ghost predicate Ready(c: Conn) {
    Due(c) && c.queue[c.pending].sends < MAX_ATTEMPTS
  }

  /** A search waits while the connection is bound as somebody else. */
  ghost predicate NeedsDefaultBind(c: Conn) {
    c.state.BoundAuth? && c.pending < |c.queue| && c.queue[c.pending].typ.Search?
  }

  /** Nothing can be done before the server or a timeout acts. */
  ghost predicate Settled(c: Conn) {
    !Due(c) && !NeedsDefaultBind(c)
  }

  /** What sending or dropping the next request comes to. */
  ghost predicate Tried(c: Conn, env: Env, c': Conn, again: bool)
    requires c.pending < |c.queue|
  {
    if c.queue[c.pending].sends >= MAX_ATTEMPTS || env.send.BadInput? then again && c' == Dropped(c, c.pending)
    else if env.send.Sent? then again && c' == SentNext(c, env.send.msgid)
    else !again && Offline(c') && (c'.state.Binding? <==> env.tlsAgain && env.bindAgain.Sent?)
  }

  /** The connection was closed; a new default bind may be on its way. */
  ghost predicate Offline(c: Conn) {
    c.pending == 0 && (c.state.Disconnected? || (c.state.Binding? && c.defaultBind != -1))
  }

  /** All requests wait for the new connection. */
  ghost predicate Reopened(c: Conn, c': Conn) {
    Offline(c') && c'.calls == c.calls && SameRequests(c.queue, c'.queue)
  }

  /** The connection was reopened, and a new default bind is on its way exactly if the library sent one. If it did not,
      the handle is closed again. */
  ghost predicate Reconnected(c: Conn, tls: bool, bind: SendResult, c': Conn) {
    Reopened(c, c') && (c'.state.Binding? <==> tls && bind.Sent?) && (c'.open <==> tls && bind.Sent?)
  }

  /** What one call of db_ldap_request_queue_next() comes to. */
  ghost predicate Stepped(c: Conn, env: Env, c': Conn, again: bool) {
    && (Due(c) ==> Tried(c, env, c', again))
    && (NeedsDefaultBind(c) ==> !again && Offline(c') && (c'.state.Binding? <==> env.bind.Sent?))
    && (c.state.Disconnected? ==>
          && !again && Offline(c') && (c'.state.Binding? <==> env.tls && env.bind.Sent?)
          && (!Attended(c') <==> !env.tls && c.queue != [] && !c.timer.AbortTimer?))
    && (!c.state.Disconnected? ==> Attended(c'))
    && (Settled(c) && !c.state.Disconnected? ==> !again && c' == c)
    && (!again ==> c'.calls == c.calls && SameIds(c.queue, c'.queue) && Settled(c'))
  }

  function WireOf(r: Request, msgid: int): Wire {
    if r.typ.Bind? then SendAuthBind(msgid, r.id) else SendSearch(msgid, r.id)
  }

  ghost function SentNext(c: Conn, msgid: int): Conn
    requires c.pending < |c.queue|
  {
    var r := c.queue[c.pending];
    c.(queue := c.queue[c.pending := r.(msgid := msgid, sends := r.sends + 1, saved := false)],
       pending := c.pending + 1,
       state := if r.typ.Bind? then Binding else c.state,
       wire := c.wire + [WireOf(r, msgid)])
  }

  lemma SentInv(c: Conn, msgid: int)
    requires Inv(c) && Ready(c) && FreshMsgid(c, msgid)
    ensures Inv(SentNext(c, msgid))
  {
    var c' := SentNext(c, msgid);
    LedgerKept(c, c');
    SentSends(c, msgid);
    SentInStep(c, msgid);
  }

  lemma SentSends(c: Conn, msgid: int)
    requires Sends(c) && Ledger(c) && c.pending < |c.queue| && c.queue[c.pending].sends < MAX_ATTEMPTS
    ensures Sends(SentNext(c, msgid))
  {
    var c' := SentNext(c, msgid);
    var r := c.queue[c.pending];
    forall id: nat ensures SendCount(c'.wire, id) == SendCount(c.wire, id) + if id == r.id then 1 else 0 {
      SendCountNext(c.wire, WireOf(r, msgid), id);
    }
  }

  lemma SentInStep(c: Conn, msgid: int)
    requires SentPrefix(c) && InStep(c) && Ledger(c) && States(c) && Ready(c) && FreshMsgid(c, msgid)
    ensures InStep(SentNext(c, msgid))
  {
    var c' := SentNext(c, msgid);
    var r := c.queue[c.pending];
    MonitorNext(c.wire, WireOf(r, msgid));
    assert msgid !in SearchIds(c.queue, c.pending);
    if r.typ.Bind? {
      assert SearchIds(c.queue, 0) == {};
      assert SearchIds(c'.queue, 1) == {};
    } else {
      SearchIdsNext(c.queue, c.pending, c'.queue);
    }
  }

  lemma SearchIdsNext(q: seq<Request>, n: nat, q': seq<Request>)
    requires n < |q| && |q'| == |q| && q'[n].typ.Search?
    requires forall i :: 0 <= i < n ==> q'[i] == q[i]
    ensures SearchIds(q', n + 1) == SearchIds(q, n) + {q'[n].msgid}
  {
    assert q'[n].msgid in SearchIds(q', n + 1);
    forall m | m in SearchIds(q, n) ensures m in SearchIds(q', n + 1) {
      var i :| 0 <= i < n && q[i].typ.Search? && q[i].msgid == m;
      assert q'[i].msgid == m && q'[i].typ.Search?;
    }
    forall m | m in SearchIds(q', n + 1) ensures m in SearchIds(q, n) + {q'[n].msgid} {
      var i :| 0 <= i < n + 1 && q'[i].typ.Search? && q'[i].msgid == m;
      if i < n {
        assert q[i].msgid == m && q[i].typ.Search?;
      }
    }
  }

  ghost function Removed(q: seq<Request>, idx: nat): seq<Request>
    requires idx < |q|
  {
    q[..idx] + q[idx + 1..]
  }

  /** A request leaves the queue with its terminal callback. */
  lemma LedgerLeave(c: Conn, c': Conn, idx: nat, cb: Callback)
    requires Ledger(c) && idx < |c.queue| && Terminal(cb) && cb.id == c.queue[idx].id
    requires c'.queue == Removed(c.queue, idx) && c'.calls == c.calls + [cb] && c'.submitted == c.submitted
    ensures Ledger(c')
  {
    var q, q' := c.queue, c'.queue;
    assert forall i :: 0 <= i < |q'| ==> q'[i] == if i < idx then q[i] else q[i + 1];
    assert InQueue(q, cb.id);
    assert !Finished(c.calls, cb.id);
    forall id: nat | id < c.submitted ensures InQueue(q', id) <==> !Finished(c'.calls, id) {
      LeaveQueue(q, idx, id);
      FinishedNext(c.calls, cb, id);
    }
    NoCallbackBefore(c, c', cb);
  }

  lemma FinishedNext(calls: seq<Callback>, cb: Callback, id: nat)
    ensures Finished(calls + [cb], id) <==> Finished(calls, id) || (Terminal(cb) && cb.id == id)
  {
    var calls' := calls + [cb];
    assert calls'[|calls|] == cb;
    assert forall k :: 0 <= k < |calls| ==> calls'[k] == calls[k];
    if Finished(calls, id) {
      var k :| 0 <= k < |calls| && Terminal(calls[k]) && calls[k].id == id;
      assert Terminal(calls'[k]) && calls'[k].id == id;
    }
  }

  lemma LeaveQueue(q: seq<Request>, idx: nat, id: nat)
    requires idx < |q| && forall i, j :: 0 <= i < j < |q| ==> q[i].id < q[j].id
    ensures InQueue(Removed(q, idx), id) <==> InQueue(q, id) && id != q[idx].id
  {
    var q' := Removed(q, idx);
    assert forall i :: 0 <= i < |q'| ==> q'[i] == if i < idx then q[i] else q[i + 1];
    if InQueue(q, id) && id != q[idx].id {
      var i :| 0 <= i < |q| && q[i].id == id;
      assert q'[if i < idx then i else i - 1].id == id;
    }
  }

  lemma NoCallbackBefore(c: Conn, c': Conn, cb: Callback)
    requires Ledger(c) && cb.id < c.submitted && !Finished(c.calls, cb.id) && c'.calls == c.calls + [cb]
    ensures forall k, l :: 0 <= k < l < |c'.calls| && Terminal(c'.calls[k]) ==> c'.calls[l].id != c'.calls[k].id
  {
    forall k, l | 0 <= k < l < |c'.calls| && Terminal(c'.calls[k]) ensures c'.calls[l].id != c'.calls[k].id {
      assert c'.calls[k] == c.calls[k];
      if l == |c.calls| {
        assert c.calls[k].id == cb.id ==> Finished(c.calls, cb.id);
      }
    }
  }

  /** A queued request may be given an entry. */
  lemma LedgerEntry(c: Conn, c': Conn, id: nat)
    requires Ledger(c) && InQueue(c.queue, id)
    requires c'.queue == c.queue && c'.calls == c.calls + [Entry(id)] && c'.submitted == c.submitted
    ensures Ledger(c')
  {
    assert id < c.submitted && !Finished(c.calls, id);
    NoCallbackBefore(c, c', Entry(id));
    forall other: nat ensures Finished(c'.calls, other) <==> Finished(c.calls, other) {
      FinishedNext(c.calls, Entry(id), other);
    }
  }

  lemma SendsLeave(c: Conn, c': Conn, idx: nat)
    requires Sends(c) && idx < |c.queue| && c'.queue == Removed(c.queue, idx)
    requires c'.wire == c.wire && c'.submitted == c.submitted
    ensures Sends(c')
  {
  }

  /** A request that was not sent is dropped with a NULL callback. */
  ghost function Dropped(c: Conn, idx: nat): Conn
    requires idx < |c.queue|
  {
    c.(queue := Removed(c.queue, idx), calls := c.calls + [Null(c.queue[idx].id)])
  }

  lemma DroppedInv(c: Conn, idx: nat)
    requires Inv(c) && c.pending <= idx < |c.queue|
    ensures Inv(Dropped(c, idx))
  {
    var c' := Dropped(c, idx);
    LedgerLeave(c, c', idx, Null(c.queue[idx].id));
    SendsLeave(c, c', idx);
    SearchIdsSame(c.queue, c'.queue, c.pending);
  }

  lemma SearchIdsSame(q: seq<Request>, q': seq<Request>, n: nat)
    requires n <= |q| && n <= |q'|
    requires forall i :: 0 <= i < n ==> q'[i].typ == q[i].typ && q'[i].msgid == q[i].msgid
    ensures SearchIds(q', n) == SearchIds(q, n)
  {
    forall m ensures m in SearchIds(q', n) <==> m in SearchIds(q, n) {
      if m in SearchIds(q, n) {
        var i :| 0 <= i < n && q[i].typ.Search? && q[i].msgid == m;
        assert q'[i].typ.Search? && q'[i].msgid == m;
      }
      if m in SearchIds(q', n) {
        var i :| 0 <= i < n && q'[i].typ.Search? && q'[i].msgid == m;
        assert q[i].typ.Search? && q[i].msgid == m;
      }
    }
  }

  /** db_ldap_request_queue_next(): connects if needed, then sends or drops at most one request.
      The result tells whether to call it again. */
  method QueueNext(c: Conn, env: Env) returns (c': Conn, again: bool)
    requires Inv(c) && EnvOk(c, env)
    ensures Inv(c') && c'.submitted == c.submitted && Grows(c, c') && Stepped(c, env, c', again)
  {
    var ok;
    again := false;
    c', ok := Connect(c, env.tls, env.bind);
    if ok {
      c', again := QueueConnected(c', env, c);
    }
  }

  /** The rest of db_ldap_request_queue_next(), with a connection. It was there before (`was`), or is binding. */
  method QueueConnected(c: Conn, env: Env, ghost was: Conn) returns (c': Conn, again: bool)
    requires Inv(c) && (c == was || Offline(c)) && EnvOk(was, env) && !c.state.Disconnected?
    ensures Inv(c') && c'.submitted == c.submitted && Grows(c, c') && Attended(c')
    ensures Due(c) ==> Tried(c, env, c', again)
    ensures NeedsDefaultBind(c) ==> !again && Offline(c') && (c'.state.Binding? <==> env.bind.Sent?)
    ensures Settled(c) ==> !again && c' == c
    ensures !again ==> c'.calls == c.calls && SameIds(c.queue, c'.queue) && Settled(c')
  {
    c', again := c, false;
    if c.pending == |c.queue| || c.pending > MAX_PENDING {
      return;
    }
    var r := c.queue[c.pending];
    if c.pending > 0 && r.typ.Bind? {
      return;
    }
    match c.state {
      case Disconnected =>
        return;
      case Binding =>
        return;
      case BoundAuth =>
        if !r.typ.Bind? {
          assert c.pending == 0;
          var ok;
          c', ok := BindDefault(c, env.bind);
          return;
        }
      case BoundDefault =>
    }
    c', again := SendNext(c, env);
  }

  /** The end of db_ldap_request_queue_next(): the request is due. */
  method SendNext(c: Conn, env: Env) returns (c': Conn, again: bool)
    requires Inv(c) && EnvOk(c, env) && c.pending < |c.queue| && !c.state.Disconnected?
    requires c.queue[c.pending].sends < MAX_ATTEMPTS ==> Ready(c)
    ensures Inv(c') && c'.submitted == c.submitted && Tried(c, env, c', again) && Grows(c, c') && Attended(c')
    ensures !again ==> c'.calls == c.calls && SameIds(c.queue, c'.queue)
  {
    var r := c.queue[c.pending];
    if r.sends >= MAX_ATTEMPTS || env.send.BadInput? {
      c' := Drop(c, c.pending);
      DroppedInv(c, c.pending);
      again := true;
    } else if env.send.ConnProblem? {
      // partial results were cleared away before the attempt
      c' := SetFlags(c, c.pending, r.failed, false);
      c' := Reconnect(c', env.tlsAgain, env.bindAgain);
      again := false;
    } else {
      c' := MarkSent(c, env.send.msgid);
      SentInv(c, env.send.msgid);
      again := true;
    }
  }

  method Drop(c: Conn, idx: nat) returns (c': Conn)
    requires idx < |c.queue|
    ensures c' == Dropped(c, idx)
  {
    c' := c.(queue := c.queue[..idx] + c.queue[idx + 1..], calls := c.calls + [Null(c.queue[idx].id)]);
  }

  method MarkSent(c: Conn, msgid: int) returns (c': Conn)
    requires c.pending < |c.queue|
    ensures c' == SentNext(c, msgid)
  {
    var r := c.queue[c.pending];
    c' := c.(queue := c.queue[c.pending := r.(msgid := msgid, sends := r.sends + 1, saved := false)],
             pending := c.pending + 1,
             state := if r.typ.Bind? then Binding else c.state,
             wire := c.wire + [WireOf(r, msgid)]);
  }

  ghost function Flagged(c: Conn, idx: nat, failed: bool, saved: bool): Conn
    requires idx < |c.queue|
  {
    c.(queue := c.queue[idx := c.queue[idx].(failed := failed, saved := saved)])
  }

  method SetFlags(c: Conn, idx: nat, failed: bool, saved: bool) returns (c': Conn)
    requires Inv(c) && idx < |c.queue|
    requires failed || saved ==> c.queue[idx].typ.Search? && !c.queue[idx].multiEntry
    ensures c' == Flagged(c, idx, failed, saved) && Inv(c')
  {
    c' := c.(queue := c.queue[idx := c.queue[idx].(failed := failed, saved := saved)]);
    FlaggedInv(c, idx, failed, saved);
  }

  lemma FlaggedInv(c: Conn, idx: nat, failed: bool, saved: bool)
    requires Inv(c) && idx < |c.queue|
    requires failed || saved ==> c.queue[idx].typ.Search? && !c.queue[idx].multiEntry
    ensures Inv(Flagged(c, idx, failed, saved))
  {
    var c' := Flagged(c, idx, failed, saved);
    LedgerKept(c, c');
    SearchIdsSame(c.queue, c'.queue, c.pending);
  }

  /** The LDAP library during one event: what it answers may depend on everything so far. */
  ghost predicate LibraryOk(net: Conn -> Env) {
    forall c :: EnvOk(c, net(c))
  }

  /** The next request was due, and was sent or dropped. */
  ghost predicate TriedAt(steps: seq<Conn>, net: Conn -> Env, k: nat)
    requires k + 1 < |steps|
  {
    Due(steps[k]) && Tried(steps[k], net(steps[k]), steps[k + 1], true)
  }

  /** Requests sent or dropped one after the other, each in its turn. */
  ghost predicate InTurn(c: Conn, net: Conn -> Env, steps: seq<Conn>) {
    && steps != [] && steps[0] == c
    && forall k: nat :: k + 1 < |steps| ==> TriedAt(steps, net, k)
  }

  lemma InTurnNext(c: Conn, net: Conn -> Env, steps: seq<Conn>, p: Conn, p': Conn)
    requires InTurn(c, net, steps) && steps[|steps| - 1] == p && p.pending <= |p.queue| && Stepped(p, net(p), p', true)
    ensures InTurn(c, net, steps + [p']) && |p'.queue| - p'.pending < |p.queue| - p.pending
    ensures p'.state.Disconnected? == p.state.Disconnected?
  {
    assert Due(p) && Tried(p, net(p), p', true);
    var steps' := steps + [p'];
    forall k: nat | k + 1 < |steps'| ensures TriedAt(steps', net, k) {
      assert k + 1 < |steps| ==> TriedAt(steps, net, k);
    }
  }

  /** What sending in turn comes to: requests are sent or dropped one after the other, until nothing more can be done
      or the connection has to be reopened or bound to the default DN first. */
  ghost predicate Sending(c: Conn, net: Conn -> Env, steps: seq<Conn>, c': Conn) {
    InTurn(c, net, steps) && var last := steps[|steps| - 1]; Stepped(last, net(last), c', false) && Grows(last, c')
  }

  lemma {:induction false} InTurnGrows(c: Conn, net: Conn -> Env, steps: seq<Conn>, k: nat)
    requires InTurn(c, net, steps) && k < |steps|
    ensures Grows(steps[k], steps[|steps| - 1])
    decreases |steps| - k
  {
    if k + 1 < |steps| {
      assert TriedAt(steps, net, k);
      InTurnGrows(c, net, steps, k + 1);
    }
  }

  /** A request whose turn it is goes out first, if the library can send it and it has attempts left. */
  lemma HeadGoesOut(c: Conn, net: Conn -> Env, steps: seq<Conn>, c': Conn)
    requires Sending(c, net, steps, c') && Ready(c) && net(c).send.Sent?
    ensures c.wire + [WireOf(c.queue[c.pending], net(c).send.msgid)] <= c'.wire
  {
    assert |steps| > 1;
    assert TriedAt(steps, net, 0);
    InTurnGrows(c, net, steps, 1);
  }

  /** `while (db_ldap_request_queue_next(conn)) ;`: requests are sent or dropped in turn, until nothing more can be
      done, or the connection has to be reopened or bound to the default DN first. */
  method SendAll(c: Conn, net: Conn -> Env) returns (c': Conn, ghost steps: seq<Conn>)
    requires Inv(c) && LibraryOk(net)
    ensures Inv(c') && c'.submitted == c.submitted && Grows(c, c') && Settled(c')
    ensures !c.state.Disconnected? ==> Attended(c')
    ensures Sending(c, net, steps, c')
  {
    c', steps := c, [c];
    while true
      invariant Inv(c') && c'.submitted == c.submitted && Grows(c, c')
      invariant InTurn(c, net, steps) && steps[|steps| - 1] == c' && c'.state.Disconnected? == c.state.Disconnected?
      decreases |c'.queue| - c'.pending
    {
      var c1, again := QueueNext(c', net(c'));
      if !again {
        return c1, steps;
      }
      InTurnNext(c, net, steps, c', c1);
      c', steps := c1, steps + [c1];
    }
  }

  // ----- aborting

  ghost function HeadAborted(c: Conn): Conn
    requires c.queue != []
  {
    c.(queue := c.queue[1..], calls := c.calls + [Null(c.queue[0].id)],
       pending := if c.pending > 0 then c.pending - 1 else 0)
  }

  lemma HeadAbortedBase(c: Conn)
    requires Base(c) && c.queue != []
    ensures Base(HeadAborted(c))
  {
    var c' := HeadAborted(c);
    assert c.queue[1..] == Removed(c.queue, 0);
    LedgerLeave(c, c', 0, Null(c.queue[0].id));
    SendsLeave(c, c', 0);
  }

  lemma HeadAbortedInv(c: Conn)
    requires Inv(c) && c.queue != [] && c.pending == 0
    ensures Inv(HeadAborted(c))
  {
    assert c.queue[1..] == Removed(c.queue, 0);
    DroppedInv(c, 0);
  }

  /** The first k requests aborted, oldest first. */
  ghost function Aborted(c: Conn, k: nat): (c': Conn)
    requires k <= |c.queue|
    ensures c'.queue == c.queue[k..] && c'.pending <= c.pending && c.calls <= c'.calls
    ensures c' == c.(queue := c'.queue, pending := c'.pending, calls := c'.calls)
  {
    if k == 0 then c else HeadAborted(Aborted(c, k - 1))
  }

  lemma {:induction false} AbortedBase(c: Conn, k: nat)
    requires Base(c) && k <= |c.queue|
    ensures Base(Aborted(c, k))
  {
    if k > 0 {
      AbortedBase(c, k - 1);
      HeadAbortedBase(Aborted(c, k - 1));
    }
  }

  lemma {:induction false} AbortedInv(c: Conn, k: nat)
    requires Inv(c) && c.pending == 0 && k <= |c.queue|
    ensures Inv(Aborted(c, k))
  {
    if k > 0 {
      AbortedInv(c, k - 1);
      HeadAbortedInv(Aborted(c, k - 1));
    }
  }

  /** Older than the timeout. */
  predicate TimedOut(r: Request, now: int, timeout: int) {
    now - r.created >= timeout
  }

  /** The longest prefix of timed out requests, up to a number. */
  ghost predicate Overdue(c: Conn, count: nat, max: nat, timeout: int, now: int) {
    && count <= max && count <= |c.queue|
    && (forall i :: 0 <= i < count ==> c.queue[i].created + timeout <= now)
    && (count == max || count == |c.queue| || now < c.queue[count].created + timeout)
  }

  /** db_ldap_abort_requests(): drops the longest prefix of timed out requests, at most `max`. */
  method Abort(c: Conn, max: nat, timeout: int, now: int) returns (c': Conn, count: nat)
    requires Base(c)
    ensures Overdue(c, count, max, timeout, now) && c' == Aborted(c, count) && Base(c') && Grows(c, c')
  {
    c', count := c, 0;
    while |c'.queue| > 0 && count < max
      invariant count <= max && count <= |c.queue| && c' == Aborted(c, count) && Base(c')
      invariant forall i :: 0 <= i < count ==> TimedOut(c.queue[i], now, timeout)
      decreases |c.queue| - count
    {
      if !TimedOut(c'.queue[0], now, timeout) {
        return;
      }
      AbortedBase(c, count + 1);
      c' := AbortHead(c');
      count := count + 1;
    }
  }

  method AbortHead(c: Conn) returns (c': Conn)
    requires SentPrefix(c) && c.queue != []
    ensures c' == HeadAborted(c)
  {
    var r := c.queue[0];
    c' := c.(queue := c.queue[1..], calls := c.calls + [Null(r.id)]);
    if r.msgid != -1 {
      assert c.pending > 0;
      c' := c'.(pending := c.pending - 1);
    }
  }

  // ----- submitting

  lemma SubmittedInv(c: Conn, r: Request)
    requires Inv(c) && New(c, r)
    ensures Inv(Joined(c, r))
  {
    var c' := Joined(c, r);
    SubmittedLedger(c, c', r);
    SearchIdsSame(c.queue, c'.queue, c.pending);
    LastSubmitted(c);
  }

  /** Only submitted requests were ever sent. */
  lemma LastSubmitted(c: Conn)
    requires Sends(c) && Monitor(c.wire).Some?
    ensures Monitor(c.wire).value.last < c.submitted
  {
    LastSent(c.wire);
  }

  lemma {:induction false} LastSent(w: seq<Wire>)
    requires Monitor(w).Some?
    ensures var l := Monitor(w).value.last; l == -1 || (l >= 0 && SendCount(w, l) > 0)
  {
    if w != [] {
      LastSent(w[..|w| - 1]);
    }
  }

  lemma SubmittedLedger(c: Conn, c': Conn, r: Request)
    requires Ledger(c) && r.id == c.submitted
    requires c'.queue == c.queue + [r] && c'.submitted == c.submitted + 1 && c'.calls == c.calls
    ensures Ledger(c')
  {
    forall id: nat | id < c'.submitted ensures InQueue(c'.queue, id) <==> !Finished(c'.calls, id) {
      if id == r.id {
        assert c'.queue[|c.queue|].id == id;
      } else {
        assert InQueue(c'.queue, id) <==> InQueue(c.queue, id) by {
          if InQueue(c.queue, id) {
            var i :| 0 <= i < |c.queue| && c.queue[i].id == id;
            assert c'.queue[i].id == id;
          }
        }
      }
    }
  }

  /** Whether the oldest request is too old, and what is done then: the requests at the front that are not from the
      future fail, and the connection is reopened. */
  ghost predicate HangingChecked(c: Conn, now: int, net: Conn -> Env, count: nat, c': Conn) {
    if c.queue == [] || now - c.queue[0].created <= LOST_TIMEOUT_SECS then count == 0 && c' == c
    else && count > 0 && Overdue(c, count, UINT_MAX, 0, now) && Attended(c')
         && Reconnected(Aborted(c, count), net(Aborted(c, count)).tls, net(Aborted(c, count)).bind, c')
  }

  /** db_ldap_check_hanging() */
  method CheckHanging(c: Conn, now: int, net: Conn -> Env) returns (c': Conn, ghost count: nat)
    requires Inv(c) && LibraryOk(net)
    ensures Inv(c') && c'.submitted == c.submitted && Grows(c, c') && HangingChecked(c, now, net, count, c')
  {
    c', count := c, 0;
    if |c.queue| > 0 && now - c.queue[0].created > LOST_TIMEOUT_SECS {
      var aborted;
      c', aborted := Abort(c, UINT_MAX, 0, now);
      count := aborted;
      assert EnvOk(c', net(c'));
      c' := Reconnect(c', net(c').tls, net(c').bind);
    }
  }

  function MakeRequest(c: Conn, typ: RequestType, multiEntry: bool, now: int): Request {
    Request(c.submitted, typ, multiEntry, -1, now, 0, false, false)
  }

  ghost function Joined(c: Conn, r: Request): Conn {
    c.(queue := c.queue + [r], submitted := c.submitted + 1)
  }

  /** db_ldap_request(): after the check for a hanging connection (`checked`) the request joins the queue, and one
      attempt is made to send. */
  method Submit(c: Conn, typ: RequestType, multiEntry: bool, now: int, net: Conn -> Env)
    returns (c': Conn, ghost count: nat, ghost checked: Conn, ghost again: bool)
    requires Inv(c) && LibraryOk(net)
    ensures Inv(c') && c'.submitted == c.submitted + 1 && Grows(c, c')
    ensures HangingChecked(c, now, net, count, checked)
    ensures var joined := Joined(checked, MakeRequest(c, typ, multiEntry, now));
            Stepped(joined, net(joined), c', again)
    ensures Settled(c) ==> Settled(c')
  {
    c', count := CheckHanging(c, now, net);
    checked := c';
    c', again := Enqueue(c', MakeRequest(c', typ, multiEntry, now), net);
  }

  /** A new request, of which nothing has been done yet. */
  ghost predicate New(c: Conn, r: Request) {
    r.id == c.submitted && r.msgid == -1 && r.sends == 0 && !r.failed && !r.saved
  }

  method Enqueue(c: Conn, r: Request, net: Conn -> Env) returns (c': Conn, ghost again: bool)
    requires Inv(c) && New(c, r) && LibraryOk(net)
    ensures Inv(c') && c'.submitted == c.submitted + 1 && Grows(c, c')
    ensures Stepped(Joined(c, r), net(Joined(c, r)), c', again)
    ensures Settled(c) ==> Settled(c')
  {
    SubmittedInv(c, r);
    var joined := c.(queue := c.queue + [r], submitted := c.submitted + 1);
    var more;
    c', more := QueueNext(joined, net(joined));
    again := more;
    StaysSettled(c, r, joined, net(joined), c', again);
  }

  /** One try is enough for a request added to a settled queue. */
  lemma StaysSettled(c: Conn, r: Request, c1: Conn, env: Env, c': Conn, again: bool)
    requires c.pending <= |c.queue| && c1 == Joined(c, r)
    requires Due(c1) ==> Tried(c1, env, c', again)
    requires !again ==> Settled(c')
    requires NeedsDefaultBind(c1) || c1.state.Disconnected? || Settled(c1) ==> !again
    ensures Settled(c) ==> Settled(c')
  {
    assert forall i :: 0 <= i < |c.queue| ==> c1.queue[i] == c.queue[i];
  }

  // ----- replies

  datatype MsgKind = SearchEntry | SearchResult | SearchReference | OtherKind

  datatype ResultCode = Success | NoSuchObject | OtherError

  datatype Reply = Reply(kind: MsgKind, code: ResultCode)

  /** db_ldap_find_request(): the scan may stop at the first request that was not sent. */
  method FindRequest(c: Conn, msgid: int) returns (found: bool, idx: nat)
    requires SentPrefix(c) && msgid != -1
    ensures found <==> exists i :: 0 <= i < |c.queue| && c.queue[i].msgid == msgid
    ensures found ==> idx < c.pending && c.queue[idx].msgid == msgid
  {
    idx := 0;
    while idx < |c.queue|
      invariant idx <= |c.queue|
      invariant forall i :: 0 <= i < idx ==> c.queue[i].msgid != msgid
    {
      if c.queue[idx].msgid == msgid {
        return true, idx;
      }
      if c.queue[idx].msgid == -1 {
        assert forall i :: idx <= i < |c.queue| ==> c.queue[i].msgid == -1;
        return false, idx;
      }
      idx := idx + 1;
    }
    return false, idx;
  }

  /** The final reply of a request: it leaves the queue and the server no longer works on it. */
  ghost function Replied(c: Conn, idx: nat, e: Wire, state: ConnState, cb: Callback): Conn
    requires idx < c.pending <= |c.queue|
  {
    c.(queue := Removed(c.queue, idx), pending := c.pending - 1, state := state,
       wire := c.wire + [e], calls := c.calls + [cb])
  }

  lemma RepliedBase(c: Conn, idx: nat, e: Wire, state: ConnState, cb: Callback)
    requires Base(c) && idx < c.pending && Terminal(cb) && cb.id == c.queue[idx].id && !IsRequest(e)
    requires Receive(Monitor(c.wire).value, e).Some? && Receive(Monitor(c.wire).value, e).value.open == c.open
    ensures Base(Replied(c, idx, e, state, cb))
  {
    var c' := Replied(c, idx, e, state, cb);
    LedgerLeave(c, c', idx, cb);
    var c1 := c.(wire := c.wire + [e]);
    SendsKept(c, c1, e);
    SendsLeave(c1, c', idx);
    MonitorNext(c.wire, e);
  }

  lemma BindRepliedInv(c: Conn, success: bool)
    requires Inv(c) && c.pending > 0 && c.queue[0].typ.Bind?
    ensures c.pending == 1 && c.state.Binding?
    ensures Inv(Replied(c, 0, BindReply(c.queue[0].msgid, success), BoundAuth, Final(c.queue[0].id)))
  {
    var e, cb := BindReply(c.queue[0].msgid, success), Final(c.queue[0].id);
    var c' := Replied(c, 0, e, BoundAuth, cb);
    MonitorNext(c.wire, e);
    RepliedBase(c, 0, e, BoundAuth, cb);
    assert SearchIds(c.queue, 1) == {};
    assert SearchIds(c'.queue, 0) == {};
  }

  lemma SearchDoneInv(c: Conn, idx: nat, cb: Callback)
    requires Inv(c) && idx < c.pending && c.queue[idx].typ.Search? && Terminal(cb) && cb.id == c.queue[idx].id
    ensures c.state.BoundDefault?
    ensures Inv(Replied(c, idx, SearchDone(c.queue[idx].msgid), c.state, cb))
  {
    var e := SearchDone(c.queue[idx].msgid);
    var c' := Replied(c, idx, e, c.state, cb);
    assert c.queue[idx].msgid in SearchIds(c.queue, c.pending);
    MonitorNext(c.wire, e);
    assert Base(c') by {
      RepliedBase(c, idx, e, c.state, cb);
    }
    assert InStep(c') by {
      SearchIdsRemoved(c.queue, c.pending, idx);
    }
  }

  lemma SearchIdsRemoved(q: seq<Request>, n: nat, idx: nat)
    requires idx < n <= |q| && forall i, j :: 0 <= i < j < n ==> q[i].msgid != q[j].msgid
    ensures SearchIds(Removed(q, idx), n - 1) == SearchIds(q, n) - {q[idx].msgid}
  {
    var q' := Removed(q, idx);
    assert forall i :: 0 <= i < |q'| ==> q'[i] == if i < idx then q[i] else q[i + 1];
    forall m ensures m in SearchIds(q', n - 1) <==> m in SearchIds(q, n) && m != q[idx].msgid {
      if m in SearchIds(q, n) && m != q[idx].msgid {
        var i :| 0 <= i < n && q[i].typ.Search? && q[i].msgid == m;
        var k := if i < idx then i else i - 1;
        assert q'[k].typ.Search? && q'[k].msgid == m;
      }
      if m in SearchIds(q', n - 1) {
        var k :| 0 <= k < n - 1 && q'[k].typ.Search? && q'[k].msgid == m;
        var i := if k < idx then k else k + 1;
        assert q[i].typ.Search? && q[i].msgid == m;
      }
    }
  }

  ghost function Told(c: Conn, idx: nat): Conn
    requires idx < |c.queue|
  {
    c.(calls := c.calls + [Entry(c.queue[idx].id)])
  }

  lemma ToldInv(c: Conn, idx: nat)
    requires Inv(c) && idx < |c.queue|
    ensures Inv(Told(c, idx))
  {
    assert InQueue(c.queue, c.queue[idx].id);
    LedgerEntry(c, Told(c, idx), c.queue[idx].id);
  }

  /** A search ends with the entry it kept and its final callback, or with NULL if it failed. */
  ghost function ResultTaken(c: Conn, idx: nat, code: ResultCode): Conn
    requires idx < c.pending <= |c.queue|
  {
    var r := c.queue[idx];
    var ok := !code.OtherError? && !r.failed;
    Replied(if ok && r.saved then Told(c, idx) else c, idx, SearchDone(r.msgid), c.state,
            if ok then Final(r.id) else Null(r.id))
  }

  /** The final reply to a search. */
  method ResultReply(c: Conn, idx: nat, code: ResultCode) returns (c': Conn)
    requires Inv(c) && idx < c.pending && c.queue[idx].typ.Search?
    ensures Inv(c') && c' == ResultTaken(c, idx, code)
  {
    var r := c.queue[idx];
    c' := c;
    var cb := Null(r.id);
    if !code.OtherError? && !r.failed {
      cb := Final(r.id);
      if r.saved {
        ToldInv(c, idx);
        c' := c.(calls := c.calls + [Entry(r.id)]);
      }
    }
    SearchDoneInv(c', idx, cb);
    c' := FinishSearch(c', idx, cb);
  }

  /** Iterations get an entry at once; a plain search keeps the first one and fails at the second. */
  ghost function EntryTaken(c: Conn, idx: nat): Conn
    requires idx < |c.queue|
  {
    var r := c.queue[idx];
    if r.multiEntry then Told(Flagged(c, idx, r.failed, false), idx)
    else Flagged(c, idx, r.failed || r.saved, !r.saved)
  }

  /** An entry of a search. */
  method EntryReply(c: Conn, idx: nat) returns (c': Conn)
    requires Inv(c) && idx < c.pending && c.queue[idx].typ.Search?
    ensures Inv(c') && c' == EntryTaken(c, idx)
  {
    var r := c.queue[idx];
    if r.multiEntry {
      c' := SetFlags(c, idx, r.failed, false);
      ToldInv(c', idx);
      c' := c'.(calls := c'.calls + [Entry(r.id)]);
    } else if r.saved {
      // more than one entry: remember the failure, wait for the final reply
      c' := SetFlags(c, idx, true, false);
    } else {
      c' := SetFlags(c, idx, r.failed, true);
    }
  }

  /** The search after k entries. */
  ghost function EntriesTaken(c: Conn, idx: nat, k: nat): (c': Conn)
    requires idx < |c.queue|
    ensures |c'.queue| == |c.queue| && c'.pending == c.pending && c'.queue[idx].id == c.queue[idx].id
  {
    if k == 0 then c else EntryTaken(EntriesTaken(c, idx, k - 1), idx)
  }

  lemma {:induction false} EntriesKept(c: Conn, idx: nat, k: nat)
    requires idx < |c.queue| && !c.queue[idx].failed && !c.queue[idx].saved
    ensures var c', r := EntriesTaken(c, idx, k), c.queue[idx];
            c'.queue[idx].multiEntry == r.multiEntry
            && if r.multiEntry then !c'.queue[idx].failed && !c'.queue[idx].saved
                                    && c'.calls == c.calls + seq(k, _ => Entry(r.id))
               else c'.calls == c.calls && (c'.queue[idx].failed <==> k > 1)
                    && (k <= 1 ==> (c'.queue[idx].saved <==> k == 1))
  {
    if k > 0 {
      EntriesKept(c, idx, k - 1);
    }
  }

  /** What the caller of a search gets for k entries and the final reply: an iteration each entry, a plain search its
      one entry, and nothing but NULL if there were more or the search failed. */
  lemma SearchCalls(c: Conn, idx: nat, k: nat, code: ResultCode)
    requires Inv(c) && idx < c.pending && c.queue[idx].typ.Search? && !c.queue[idx].failed && !c.queue[idx].saved
    ensures var r, calls := c.queue[idx], ResultTaken(EntriesTaken(c, idx, k), idx, code).calls;
            calls == c.calls + if r.multiEntry
                               then seq(k, _ => Entry(r.id)) + [if code.OtherError? then Null(r.id) else Final(r.id)]
                               else if code.OtherError? || k > 1 then [Null(r.id)]
                               else if k == 1 then [Entry(r.id), Final(r.id)] else [Final(r.id)]
  {
    EntriesKept(c, idx, k);
  }

  method FinishSearch(c: Conn, idx: nat, cb: Callback) returns (c': Conn)
    requires idx < c.pending <= |c.queue|
    ensures c' == Replied(c, idx, SearchDone(c.queue[idx].msgid), c.state, cb)
  {
    c' := c.(queue := c.queue[..idx] + c.queue[idx + 1..], pending := c.pending - 1,
             wire := c.wire + [SearchDone(c.queue[idx].msgid)], calls := c.calls + [cb]);
  }

  /** The one reply the pipeline cannot digest: a search entry in answer to a bind. */
  predicate EntryForBind(c: Conn, idx: nat, reply: Reply)
    requires idx < |c.queue|
  {
    c.queue[idx].typ.Bind? && reply.kind.SearchEntry?
  }

  /** The bind counts as done although its request is still pending: the assert that its next reply finds the
      connection binding will not hold. */
  ghost function Misled(c: Conn, idx: nat): Conn
    requires idx < |c.queue|
  {
    c.(state := BoundAuth, queue := c.queue[idx := c.queue[idx].(saved := true)])
  }

  /** The requests sent before the answered one that are old are dropped, and then the connection is reopened. */
  ghost predicate LostAborted(c: Conn, idx: nat, now: int, net: Conn -> Env, count: nat, c': Conn) {
    && Overdue(c, count, idx, LOST_TIMEOUT_SECS, now)
    && if count == 0 then c' == c
       else Reconnected(Aborted(c, count), net(Aborted(c, count)).tls, net(Aborted(c, count)).bind, c')
  }

  /** What a reply means to its request: the answer to a bind and the result of a search are final. */
  ghost predicate Answered(c: Conn, idx: nat, reply: Reply, now: int, net: Conn -> Env, c': Conn)
    requires idx < c.pending <= |c.queue|
  {
    var r := c.queue[idx];
    if r.typ.Bind? then
      c' == Replied(c, idx, BindReply(r.msgid, reply.code.Success?), BoundAuth, Final(r.id))
    else if reply.kind.SearchResult? then
      exists count: nat :: LostAborted(ResultTaken(c, idx, reply.code), idx, now, net, count, c')
    else if reply.kind.SearchEntry? && r.multiEntry then
      exists count: nat :: LostAborted(EntryTaken(c, idx), idx, now, net, count, c')
    else c' == Taken(c, idx, reply)
  }

  /** Replies after which requests sent earlier may count as lost. */
  predicate Progresses(r: Request, reply: Reply) {
    reply.kind.SearchResult? || (reply.kind.SearchEntry? && r.multiEntry)
  }

  /** What a reply does to its search. */
  ghost function Taken(c: Conn, idx: nat, reply: Reply): Conn
    requires idx < c.pending <= |c.queue|
  {
    match reply.kind
    case SearchReference => c
    case OtherKind => Flagged(c, idx, c.queue[idx].failed, false)
    case SearchEntry => EntryTaken(c, idx)
    case SearchResult => ResultTaken(c, idx, reply.code)
  }

  /** db_ldap_handle_request_result(). The invariant is kept exactly if a bind is not answered
      by a search entry; that reply would leave the bind outstanding in state BoundAuth. */
  method HandleReply(c: Conn, idx: nat, reply: Reply, now: int, net: Conn -> Env) returns (c': Conn)
    requires Inv(c) && idx < c.pending && LibraryOk(net)
    ensures Inv(c') <==> !EntryForBind(c, idx, reply)
    ensures c'.submitted == c.submitted && Grows(c, c') && Attended(c')
    ensures if EntryForBind(c, idx, reply) then c' == Misled(c, idx) && c'.pending == 1
            else Answered(c, idx, reply, now, net, c')
  {
    var r := c.queue[idx];
    if r.typ.Bind? {
      BindRepliedInv(c, reply.code.Success?);
      assert c.state.Binding? && c.pending == 1;
      if reply.kind.SearchEntry? {
        c' := c.(state := BoundAuth, queue := c.queue[idx := r.(saved := true)]);
        assert !States(c');
        return;
      }
      c' := c.(queue := c.queue[..idx] + c.queue[idx + 1..], pending := c.pending - 1, state := BoundAuth,
               wire := c.wire + [BindReply(r.msgid, reply.code.Success?)], calls := c.calls + [Final(r.id)]);
    } else {
      c' := HandleSearchReply(c, idx, reply, now, net);
    }
  }

  method HandleSearchReply(c: Conn, idx: nat, reply: Reply, now: int, net: Conn -> Env) returns (c': Conn)
    requires Inv(c) && idx < c.pending && c.queue[idx].typ.Search? && LibraryOk(net)
    ensures Inv(c') && c'.submitted == c.submitted && Grows(c, c') && Attended(c')
    ensures Answered(c, idx, reply, now, net, c')
  {
    c' := TakeReply(c, idx, reply);
    if Progresses(c.queue[idx], reply) {
      ghost var count;
      c', count := AbortLost(c', idx, now, net);
    }
  }

  method TakeReply(c: Conn, idx: nat, reply: Reply) returns (c': Conn)
    requires Inv(c) && idx < c.pending && c.queue[idx].typ.Search?
    ensures Inv(c') && c'.submitted == c.submitted && Grows(c, c') && c' == Taken(c, idx, reply)
  {
    match reply.kind {
      case SearchReference =>
        c' := c;
      case OtherKind =>
        c' := SetFlags(c, idx, c.queue[idx].failed, false);
      case SearchEntry =>
        c' := EntryReply(c, idx);
      case SearchResult =>
        c' := ResultReply(c, idx, reply.code);
    }
  }

  /** Requests sent before one that was answered are lost once they are old; then the connection
      is reopened. */
  method AbortLost(c: Conn, idx: nat, now: int, net: Conn -> Env) returns (c': Conn, ghost count: nat)
    requires Inv(c) && LibraryOk(net)
    ensures Inv(c') && c'.submitted == c.submitted && Grows(c, c') && (Attended(c) ==> Attended(c'))
    ensures LostAborted(c, idx, now, net, count, c')
  {
    c', count := c, 0;
    if idx > 0 {
      var aborted;
      c', aborted := Abort(c, idx, LOST_TIMEOUT_SECS, now);
      count := aborted;
      if aborted > 0 {
        assert EnvOk(c', net(c'));
        c' := Reconnect(c', net(c').tls, net(c').bind);
      }
    }
  }

  /** The default bind was accepted. */
  ghost function Bound(c: Conn): Conn {
    c.(defaultBind := -1, timer := NoTimer, state := BoundDefault, wire := c.wire + [BindReply(c.defaultBind, true)])
  }

  /** The default bind was refused. */
  ghost function Refused(c: Conn): Conn {
    c.(defaultBind := -1, wire := c.wire + [BindReply(c.defaultBind, false)])
  }

  /** What the answer to the default bind leads to: the queue is sent, or the connection is closed. */
  ghost predicate BindFinished(c: Conn, success: bool, net: Conn -> Env, c': Conn)
    requires c.pending <= |c.queue|
  {
    if success then exists steps :: Sending(Bound(c), net, steps, c') else c' == Closed(Refused(c))
  }

  /** db_ldap_default_bind_finished() */
  method DefaultBindReply(c: Conn, success: bool, net: Conn -> Env) returns (c': Conn)
    requires Inv(c) && c.defaultBind != -1 && LibraryOk(net)
    ensures Inv(c') && c'.submitted == c.submitted && Grows(c, c') && Attended(c')
    ensures success ==> Settled(c')
    ensures BindFinished(c, success, net, c')
  {
    assert c.pending == 0;
    DefaultBindReplyInv(c, success);
    if success {
      c' := c.(defaultBind := -1, timer := NoTimer, state := BoundDefault,
               wire := c.wire + [BindReply(c.defaultBind, true)]);
      ghost var steps;
      c', steps := SendAll(c', net);
    } else {
      c' := CloseConn(c.(defaultBind := -1, wire := c.wire + [BindReply(c.defaultBind, false)]));
    }
  }

  /** After a successful default bind the oldest request goes out. */
  lemma BoundSends(c: Conn, net: Conn -> Env, c': Conn)
    requires Inv(c) && c.defaultBind != -1 && BindFinished(c, true, net, c')
    requires c.queue != [] && c.queue[0].sends < MAX_ATTEMPTS && net(Bound(c)).send.Sent?
    ensures Bound(c).wire + [WireOf(c.queue[0], net(Bound(c)).send.msgid)] <= c'.wire
  {
    DefaultBindReplyInv(c, true);
    var steps :| Sending(Bound(c), net, steps, c');
    HeadGoesOut(Bound(c), net, steps, c');
  }

  lemma DefaultBindReplyInv(c: Conn, success: bool)
    requires Inv(c) && c.defaultBind != -1
    ensures c.state.Binding? && c.pending == 0
    ensures success ==> Inv(Bound(c))
    ensures Base(c.(defaultBind := -1, wire := c.wire + [BindReply(c.defaultBind, success)]))
  {
    var e := BindReply(c.defaultBind, success);
    var c' := c.(defaultBind := -1, wire := c.wire + [e]);
    MonitorNext(c.wire, e);
    SendsKept(c, c', e);
    assert SearchIds(c.queue, 0) == {};
  }
}
