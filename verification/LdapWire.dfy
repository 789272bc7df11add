/** What an LDAP client may put on the wire, stated without reference to how db-ldap keeps track
    of it: a monitor over the traffic of one connection object, through any number of
    reconnects, and what the monitor's verdict means event by event.
 */
module LdapWire {
  import opened Options

  datatype Identity = Anonymous | DefaultDn | AuthDn

  datatype Wire =
    | Open                                    // a new LDAP handle
    | Close                                   // ldap_unbind
    | SendDefaultBind(msgid: int)
    | SendAuthBind(msgid: int, id: nat)       // auth bind of request `id`
    | SendSearch(msgid: int, id: nat)
    | BindReply(msgid: int, success: bool)
    | SearchDone(msgid: int)

  predicate IsBind(e: Wire) {
    e.SendDefaultBind? || e.SendAuthBind?
  }

  predicate IsRequest(e: Wire) {
    e.SendAuthBind? || e.SendSearch?
  }

  predicate IsSend(e: Wire) {
    IsBind(e) || e.SendSearch?
  }

  /** The server's view: the outstanding bind and who it would bind as, the outstanding searches,
      the current identity, and the last request sent on this connection (-1: none). */
  datatype Server = Server(open: bool, bind: Option<(int, Identity)>, searches: set<int>, identity: Identity, last: int)

  const CLOSED := Server(false, None, {}, Anonymous, -1)

  /** Section 4.2.1 of RFC 4511: nothing is sent while a bind is outstanding, and a bind only when
      nothing is outstanding. Beyond the RFC: searches run as the default DN, and the requests of
      one connection go out in submission order. */
  function Receive(s: Server, e: Wire): Option<Server> {
    match e
    case Open => if s.open then None else Some(CLOSED.(open := true))
    case Close => if s.open then Some(CLOSED) else None
    case SendDefaultBind(m) =>
      if s.open && s.bind.None? && s.searches == {}
      then Some(s.(bind := Some((m, DefaultDn)), identity := Anonymous)) else None
    case SendAuthBind(m, id) =>
      if s.open && s.bind.None? && s.searches == {} && id > s.last
      then Some(s.(bind := Some((m, AuthDn)), identity := Anonymous, last := id)) else None
    case SendSearch(m, id) =>
      if s.open && s.bind.None? && s.identity.DefaultDn? && m !in s.searches && id > s.last
      then Some(s.(searches := s.searches + {m}, last := id)) else None
    case BindReply(m, success) =>
      if s.bind.Some? && s.bind.value.0 == m
      then Some(s.(bind := None,
                   identity := if s.bind.value.1 != DefaultDn then AuthDn else if success then DefaultDn else Anonymous))
      else None
    case SearchDone(m) =>
      if m in s.searches then Some(s.(searches := s.searches - {m})) else None
  }

  /** The server after the traffic, or None as soon as a rule was broken. */
  ghost function Monitor(w: seq<Wire>): Option<Server> {
    if w == [] then Some(CLOSED)
    else match Monitor(w[..|w| - 1])
      case None => None
      case Some(s) => Receive(s, w[|w| - 1])
  }

  lemma MonitorNext(w: seq<Wire>, e: Wire)
    ensures Monitor(w + [e]) == match Monitor(w) case None => None case Some(s) => Receive(s, e)
  {
    assert (w + [e])[..|w|] == w;
  }

  /** How often a request was sent. */
  ghost function SendCount(w: seq<Wire>, id: nat): nat {
    if w == [] then 0
    else SendCount(w[..|w| - 1], id) + if IsRequest(w[|w| - 1]) && w[|w| - 1].id == id then 1 else 0
  }

  lemma SendCountNext(w: seq<Wire>, e: Wire, id: nat)
    ensures SendCount(w + [e], id) == SendCount(w, id) + if IsRequest(e) && e.id == id then 1 else 0
  {
    assert (w + [e])[..|w|] == w;
  }

  // ----- what the monitor's verdict means

  lemma {:induction false} MonitorPrefix(w: seq<Wire>, n: nat)
    requires Monitor(w).Some? && n <= |w|
    ensures Monitor(w[..n]).Some?
  {
    if n < |w| {
      MonitorPrefix(w[..|w| - 1], n);
      assert w[..|w| - 1][..n] == w[..n];
    } else {
      assert w[..n] == w;
    }
  }

  /** Between events i and j the connection stays open and this bind is not answered. */
  ghost predicate BindOutstanding(w: seq<Wire>, i: nat, j: nat) {
    && i < j <= |w| && IsBind(w[i])
    && forall k :: i < k < j ==>
         !w[k].Open? && !w[k].Close? && !(w[k].BindReply? && w[k].msgid == w[i].msgid)
  }

  /** Between events i and j the connection stays open and this search is not answered. */
  ghost predicate SearchOutstanding(w: seq<Wire>, i: nat, j: nat) {
    && i < j <= |w| && w[i].SendSearch?
    && forall k :: i < k < j ==>
         !w[k].Open? && !w[k].Close? && !(w[k].SearchDone? && w[k].msgid == w[i].msgid)
  }

  /** Event i told that the default bind succeeded, and nothing changed the identity until j. */
  ghost predicate BoundAsDefault(w: seq<Wire>, i: nat, j: nat) {
    && i < j <= |w| && w[i].BindReply? && w[i].success
    && (exists b: nat :: b < i && w[b].SendDefaultBind? && w[b].msgid == w[i].msgid && BindOutstanding(w, b, i))
    && forall k :: i < k < j ==> !w[k].Open? && !w[k].Close? && !IsBind(w[k])
  }

  lemma {:induction false} OutstandingSeen(w: seq<Wire>, i: nat)
    requires Monitor(w).Some? && i < |w| && BindOutstanding(w, i, |w|)
    ensures Monitor(w).value.bind ==
            Some((w[i].msgid, if w[i].SendDefaultBind? then DefaultDn else AuthDn))
  {
    if i < |w| - 1 {
      var p := w[..|w| - 1];
      assert Monitor(p).Some?;
      assert BindOutstanding(p, i, |p|);
      OutstandingSeen(p, i);
    }
  }

  lemma {:induction false} SearchSeen(w: seq<Wire>, i: nat)
    requires Monitor(w).Some? && i < |w| && SearchOutstanding(w, i, |w|)
    ensures w[i].msgid in Monitor(w).value.searches
  {
    if i < |w| - 1 {
      var p := w[..|w| - 1];
      assert Monitor(p).Some?;
      assert SearchOutstanding(p, i, |p|);
      SearchSeen(p, i);
    }
  }

  /** The monitor's outstanding bind was really sent on this connection and not answered. */
  lemma {:induction false} OutstandingSent(w: seq<Wire>) returns (i: nat)
    requires Monitor(w).Some? && Monitor(w).value.bind.Some?
    ensures i < |w| && BindOutstanding(w, i, |w|)
    ensures Monitor(w).value.bind.value == (w[i].msgid, if w[i].SendDefaultBind? then DefaultDn else AuthDn)
  {
    var n := |w| - 1;
    var p := w[..n];
    if IsBind(w[n]) {
      i := n;
    } else {
      i := OutstandingSent(p);
      assert BindOutstanding(p, i, n);
    }
  }

  lemma {:induction false} DefaultIdentity(w: seq<Wire>) returns (i: nat)
    requires Monitor(w).Some? && Monitor(w).value.identity.DefaultDn?
    ensures i < |w| && BoundAsDefault(w, i, |w|)
  {
    var n := |w| - 1;
    var p := w[..n];
    if w[n].BindReply? && Monitor(p).value.bind.value.1.DefaultDn? {
      var b := OutstandingSent(p);
      i := n;
      assert BindOutstanding(w, b, n);
    } else {
      i := DefaultIdentity(p);
      BoundPrefix(w, i, n);
    }
  }

  /** In accepted traffic nothing is sent while a bind is outstanding. */
  lemma NoSendDuringBind(w: seq<Wire>, i: nat, j: nat)
    requires Monitor(w).Some? && j < |w| && IsSend(w[j])
    ensures !BindOutstanding(w, i, j)
  {
    if BindOutstanding(w, i, j) {
      MonitorPrefix(w, j);
      MonitorPrefix(w, j + 1);
      assert w[..j + 1] == w[..j] + [w[j]];
      MonitorNext(w[..j], w[j]);
      assert BindOutstanding(w[..j], i, j);
      OutstandingSeen(w[..j], i);
      assert false;
    }
  }

  /** In accepted traffic no bind is sent while a search is outstanding. */
  lemma NoBindDuringSearch(w: seq<Wire>, i: nat, j: nat)
    requires Monitor(w).Some? && j < |w| && IsBind(w[j])
    ensures !SearchOutstanding(w, i, j)
  {
    if SearchOutstanding(w, i, j) {
      MonitorPrefix(w, j);
      MonitorPrefix(w, j + 1);
      assert w[..j + 1] == w[..j] + [w[j]];
      MonitorNext(w[..j], w[j]);
      assert SearchOutstanding(w[..j], i, j);
      SearchSeen(w[..j], i);
      assert false;
    }
  }

  /** In accepted traffic every search follows a successful bind to the default DN on the same
      connection, with no other bind in between. */
  lemma SearchesAsDefault(w: seq<Wire>, j: nat) returns (i: nat)
    requires Monitor(w).Some? && j < |w| && w[j].SendSearch?
    ensures i < j && BoundAsDefault(w, i, j)
  {
    SearchNeedsDefault(w, j);
    i := DefaultIdentity(w[..j]);
    BoundPrefix(w, i, j);
  }

  lemma SearchNeedsDefault(w: seq<Wire>, j: nat)
    requires Monitor(w).Some? && j < |w| && w[j].SendSearch?
    ensures Monitor(w[..j]).Some? && Monitor(w[..j]).value.identity.DefaultDn?
  {
    MonitorPrefix(w, j);
    MonitorPrefix(w, j + 1);
    assert w[..j + 1] == w[..j] + [w[j]];
    MonitorNext(w[..j], w[j]);
  }

  lemma BoundPrefix(w: seq<Wire>, i: nat, j: nat)
    requires j <= |w| && BoundAsDefault(w[..j], i, j)
    ensures BoundAsDefault(w, i, j)
  {
    var p := w[..j];
    var b: nat :| b < i && p[b].SendDefaultBind? && p[b].msgid == p[i].msgid && BindOutstanding(p, b, i);
    assert BindOutstanding(w, b, i);
  }

  /** No reconnect between two events. */
  ghost predicate SameConnection(w: seq<Wire>, i: nat, j: nat) {
    i < j <= |w| && forall k :: i < k < j ==> !w[k].Open? && !w[k].Close?
  }

  lemma {:induction false} LastIsLatest(w: seq<Wire>, i: nat)
    requires Monitor(w).Some? && SameConnection(w, i, |w|) && IsRequest(w[i])
    ensures Monitor(w).value.last >= w[i].id
  {
    if i < |w| - 1 {
      LastIsLatest(w[..|w| - 1], i);
    }
  }

  /** In accepted traffic the requests of one connection are sent in submission order, resent ones too. */
  lemma SentInOrder(w: seq<Wire>, i: nat, j: nat)
    requires Monitor(w).Some? && j < |w| && SameConnection(w, i, j) && IsRequest(w[i]) && IsRequest(w[j])
    ensures w[i].id < w[j].id
  {
    MonitorPrefix(w, j);
    MonitorPrefix(w, j + 1);
    assert w[..j + 1] == w[..j] + [w[j]];
    MonitorNext(w[..j], w[j]);
    LastIsLatest(w[..j], i);
  }
}
