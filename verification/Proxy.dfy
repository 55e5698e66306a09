/** The event loop of the proxy (HTTP Proxy Effecient/proxy.c and data.c): shared connections,
    counted by the sockets that refer to them, over batches of epoll events.

    Records live in maps keyed by identity; freeing one removes it, so using a freed record would
    be a use of a missing key.  What the operating system and the request parser answer comes in
    with each event. */
module Proxy {
  import opened Options

  const NO_FD: int := -1

  datatype Connection = Connection(fd1: int, fd2: int, refs: int, authorized: bool, https: bool, key: Option<string>)

  datatype Data = Data(fd: int, tunnel: bool, connection: Option<nat>)

  /** Bytes read from `source` and passed on to `target`. */
  datatype Relay = Relay(connection: nat, source: int, target: int)

  /** `watched` are the records registered with epoll; `freed` the connections released so far, in
      order; `used` every descriptor ever open; `relays` everything passed on so far. */
  datatype World = World(
    listener: nat, connections: map<nat, Connection>, datas: map<nat, Data>, watched: set<nat>,
    next: nat, used: set<int>, freed: seq<nat>, relays: seq<Relay>)

  /** What the calls made by a handler answer. */
  datatype Answers = Answers(
    accepted: Option<int>, added: bool, received: int, again: bool, authorizes: bool, parses: bool,
    key: Option<string>, cacheSent: bool, upstream: Option<int>, https: bool, sent: int)

  /** One epoll event: a record, whether it reports an error, and the answers its handler gets. */
  datatype Event = Event(data: nat, broken: bool, answers: Answers)

  // ---------- data.c ----------

  function CreateConnection(w: World, client: int, server: int): (World, nat) {
    var c := Connection(client, server, 0, false, false, None);
    (w.(connections := w.connections[w.next := c], next := w.next + 1), w.next)
  }

  function CreateData(w: World, fd: int, c: nat): (World, nat)
    requires c in w.connections
  {
    var x := w.connections[c];
    (w.(connections := w.connections[c := x.(refs := x.refs + 1)],
        datas := w.datas[w.next := Data(fd, false, Some(c))], next := w.next + 1), w.next)
  }

  /** `cleanup_connection`. */
  function Cleanup(w: World, d: nat): World
    requires d in w.datas && w.datas[d].connection.Some? && w.datas[d].connection.value in w.connections
  {
    var c := w.datas[d].connection.value;
    var x := w.connections[c].(refs := w.connections[c].refs - 1);
    w.(watched := w.watched - {d}, datas := w.datas - {d},
       connections := if x.refs == 0 then w.connections - {c} else w.connections[c := x],
       freed := if x.refs == 0 then w.freed + [c] else w.freed)
  }

  function Watch(w: World, d: nat, added: bool): World {
    if added then w.(watched := w.watched + {d}) else w
  }

  /** close(2) on a record's descriptor, which epoll forgets; the record stays. */
  function CloseFd(w: World, d: nat): World {
    w.(watched := w.watched - {d})
  }

  function Open(w: World, fd: int): World {
    w.(used := w.used + {fd})
  }

  // ---------- the invariant ----------

  ghost function Holders(w: World, c: nat): set<nat> {
    set d | d in w.datas && w.datas[d].connection == Some(c)
  }

  /** A record belongs to a live connection and is one of its two ends. */
  ghost predicate RecordOk(w: World, d: nat)
    requires d in w.datas
  {
    && w.datas[d].connection.Some? && w.datas[d].connection.value in w.connections
    && (w.datas[d].fd == w.connections[w.datas[d].connection.value].fd1
        || w.datas[d].fd == w.connections[w.datas[d].connection.value].fd2)
  }

  ghost predicate DatasOk(w: World) {
    && w.listener in w.datas && w.datas[w.listener].connection == None
    && (forall d | d in w.datas :: d < w.next && w.datas[d].fd in w.used)
    && (forall d | d in w.datas && d != w.listener :: RecordOk(w, d))
    && (forall d, e | d in w.datas && e in w.datas && w.datas[d].fd == w.datas[e].fd :: d == e)
    && w.watched <= w.datas.Keys && (forall c | c in w.connections :: c < w.next)
    && NO_FD !in w.used
  }

  /** `refs` counts the records, and only an authorized connection has an upstream. */
  ghost predicate ConnectionOk(w: World, c: nat)
    requires c in w.connections
  {
    && w.connections[c].refs == |Holders(w, c)| > 0
    && (w.connections[c].fd2 != NO_FD ==> w.connections[c].authorized)
    && (w.connections[c].authorized && w.connections[c].fd2 == NO_FD ==> Holders(w, c) !! w.watched)
    && w.connections[c].fd1 in w.used && w.connections[c].fd1 != w.connections[c].fd2
  }

  ghost predicate ConnectionsOk(w: World) {
    forall c | c in w.connections :: ConnectionOk(w, c)
  }

  /** A released connection is gone for good, and was released once. */
  ghost predicate FreedOk(w: World) {
    && (forall i | 0 <= i < |w.freed| :: w.freed[i] < w.next && w.freed[i] !in w.connections)
    && (forall i, j | 0 <= i < j < |w.freed| :: w.freed[i] != w.freed[j])
  }

  ghost predicate WorldOk(w: World) {
    DatasOk(w) && ConnectionsOk(w) && FreedOk(w)
  }

  // ---------- proxy.c: one event ----------

  /** Descriptors are never reused: what accept and connect deliver is new. */
  ghost predicate FreshAnswers(w: World, a: Answers) {
    && (a.accepted.Some? ==> a.accepted.value !in w.used && a.accepted.value >= 0)
    && (a.upstream.Some? ==> a.upstream.value !in w.used && a.upstream.value >= 0)
  }

  ghost predicate Deliverable(w: World, e: Event) {
    WorldOk(w) && e.data in w.datas && (e.broken ==> e.data != w.listener) && FreshAnswers(w, e.answers)
  }

  function Accept(w: World, client: int, added: bool): World {
    var (w1, c) := CreateConnection(Open(w, client), client, NO_FD);
    var (w2, d) := CreateData(w1, client, c);
    Watch(w2, d, added)
  }

  /** The request is authorized, and its cache key noted. */
  function Admit(w: World, c: nat, key: Option<string>): World
    requires c in w.connections
  {
    var x := w.connections[c].(authorized := true);
    w.(connections := w.connections[c := if key.Some? then x.(key := key) else x])
  }

  /** A server socket joins connection `c`. */
  function Join(w: World, c: nat, server: int, https: bool, added: bool): (World, nat)
    requires c in w.connections
  {
    var w1 := Open(w, server);
    var w2 := w1.(connections := w1.connections[c := w1.connections[c].(fd2 := server, https := https)]);
    var (w3, d2) := CreateData(w2, server, c);
    (Watch(w3, d2, added), d2)
  }

  function SetTunnel(w: World, d: nat): World
    requires d in w.datas
  {
    w.(datas := w.datas[d := w.datas[d].(tunnel := true)])
  }

  /** `send` to one of the two ends failed right after the server socket joined. */
  function Abandon(w: World, d: nat, d2: nat): World
    requires d in w.datas && d2 in w.datas && d != d2
    requires w.datas[d].connection.Some? && w.datas[d].connection == w.datas[d2].connection
    requires w.datas[d].connection.value in w.connections && w.connections[w.datas[d].connection.value].refs != 1
  {
    Cleanup(Cleanup(w, d), d2)
  }

  /** The first request on a client socket; true means the rest of the batch is skipped. */
  function FirstRequest(w: World, d: nat, a: Answers): (World, bool)
    requires d in w.datas && d < w.next && w.datas[d].connection.Some? && w.datas[d].connection.value in w.connections
    requires w.connections[w.datas[d].connection.value].refs > 0
  {
    var c := w.datas[d].connection.value;
    if a.received <= 0 || !a.authorizes then (Cleanup(w, d), false)
    else if !a.parses then (CloseFd(Admit(w, c, None), d), false)
    else
      var w1 := Admit(w, c, a.key);
      if a.key.Some? && a.cacheSent then (Cleanup(w1, d), true)
      else if a.upstream.None? then (CloseFd(w1, d), false)
      else
        (Upgrade(w1, d, c, a), false)
  }

  /** The rest of the first request, once the server is connected. */
  function Upgrade(w: World, d: nat, c: nat, a: Answers): World
    requires d in w.datas && d < w.next && w.datas[d].connection == Some(c) && c in w.connections
    requires w.connections[c].refs > 0 && a.upstream.Some?
  {
    var (w2, d2) := Join(w, c, a.upstream.value, a.https, a.added);
    Settle(w2, d, d2, a)
  }

  /** The answer to the client, or the request passed on to the server. */
  function Settle(w: World, d: nat, d2: nat, a: Answers): World
    requires d in w.datas && d2 in w.datas && d != d2
    requires w.datas[d].connection.Some? && w.datas[d].connection == w.datas[d2].connection
    requires w.datas[d].connection.value in w.connections && w.connections[w.datas[d].connection.value].refs != 1
  {
    if a.https then (if a.sent <= 0 then Abandon(w, d, d2) else SetTunnel(w, d))
    else if a.sent < 0 then Abandon(w, d, d2) else w
  }

  function RelayOnce(w: World, d: nat, a: Answers): World
    requires d in w.datas && w.datas[d].connection.Some? && w.datas[d].connection.value in w.connections
  {
    var c := w.datas[d].connection.value;
    var source := w.datas[d].fd;
    var target := if w.connections[c].fd1 == source then w.connections[c].fd2 else w.connections[c].fd1;
    if a.received == 0 then Cleanup(w, d)
    else if a.received < 0 then (if a.again then w else Cleanup(w, d))
    else
      var w1 := w.(relays := w.relays + [Relay(c, source, target)]);
      if a.sent == 0 then Cleanup(w1, d)
      else if a.sent < 0 && !a.again then Cleanup(w1, d)
      else w1
  }

  ghost function Handle(w: World, e: Event): (World, bool)
    requires Deliverable(w, e)
  {
    var d := w.datas[e.data];
    if e.broken then (Cleanup(w, e.data), false)
    else if d.fd == w.datas[w.listener].fd then
      (if e.answers.accepted.None? then w else Accept(w, e.answers.accepted.value, e.answers.added), false)
    else
      var x := w.connections[d.connection.value];
      if d.fd == x.fd1 && !d.tunnel && !x.authorized then FirstRequest(w, e.data, e.answers)
      else if x.authorized then (RelayOnce(w, e.data, e.answers), false)
      else (w, false)
  }

  // ---------- every handler keeps the invariant ----------

  /** What a handler may do to the other records: nothing. */
  ghost predicate OthersStay(w: World, w': World, d: nat) {
    && w'.listener == w.listener
    && (forall e | e in w.datas && e != d :: e in w'.datas && w'.datas[e] == w.datas[e])
    && (forall e | e in w.watched && e != d :: e in w'.watched)
    && w.used <= w'.used && w.next <= w'.next
    && w.freed <= w'.freed && w.relays <= w'.relays
  }

  lemma HoldersAfterCleanup(w: World, d: nat, e: nat)
    requires DatasOk(w) && d in w.datas && d != w.listener && w.datas[d].connection.value in w.connections
    ensures Holders(Cleanup(w, d), e) == Holders(w, e) - {d}
  {
  }

  lemma Singleton(s: set<nat>, d: nat)
    requires d in s
    ensures s == {d} <==> |s| == 1
  {
    if |s| == 1 {
      assert |s - {d}| == 0;
      assert s == (s - {d}) + {d};
    }
  }

  /** One record less: the count follows, and the connection goes with its last record. */
  lemma CleanupOk(w: World, d: nat)
    requires WorldOk(w) && d in w.datas && d != w.listener
    ensures WorldOk(Cleanup(w, d)) && OthersStay(w, Cleanup(w, d), d)
    ensures d !in Cleanup(w, d).datas
    ensures var c := w.datas[d].connection.value;
      if Holders(w, c) == {d} then c !in Cleanup(w, d).connections && Cleanup(w, d).freed == w.freed + [c]
      else c in Cleanup(w, d).connections && Cleanup(w, d).freed == w.freed
  {
    hide DatasOk, ConnectionsOk, FreedOk, OthersStay, Holders;
    CleanupCounts(w, d);
    CleanupDatas(w, d);
    CleanupConnections(w, d);
    CleanupFreed(w, d);
  }

  lemma CleanupFreed(w: World, d: nat)
    requires WorldOk(w) && d in w.datas && d != w.listener
    ensures FreedOk(Cleanup(w, d)) && OthersStay(w, Cleanup(w, d), d)
  {
    hide ConnectionsOk, Holders;
  }

  lemma CleanupCounts(w: World, d: nat)
    requires WorldOk(w) && d in w.datas && d != w.listener
    ensures var c := w.datas[d].connection.value;
      && (w.connections[c].refs == 1 <==> Holders(w, c) == {d})
      && forall e :: Holders(Cleanup(w, d), e) == Holders(w, e) - {d}
  {
    var c := w.datas[d].connection.value;
    assert d in Holders(w, c);
    Singleton(Holders(w, c), d);
    forall e
      ensures Holders(Cleanup(w, d), e) == Holders(w, e) - {d}
    {
      HoldersAfterCleanup(w, d, e);
    }
  }

  lemma CleanupDatas(w: World, d: nat)
    requires WorldOk(w) && d in w.datas && d != w.listener
    ensures DatasOk(Cleanup(w, d))
  {
    CleanupCounts(w, d);
    hide ConnectionsOk, FreedOk;
    var c := w.datas[d].connection.value;
    var w' := Cleanup(w, d);
    forall e | e in w'.datas && e != w.listener
      ensures RecordOk(w', e)
    {
      assert RecordOk(w, e);
      HolderOf(w', e, c);
    }
    hide Holders, RecordOk;
  }

  lemma CleanupConnections(w: World, d: nat)
    requires WorldOk(w) && d in w.datas && d != w.listener
    ensures ConnectionsOk(Cleanup(w, d))
  {
    var w' := Cleanup(w, d);
    CleanupCounts(w, d);
    forall e | e in w'.connections
      ensures ConnectionOk(w', e)
    {
      CleanupConnection(w, d, e);
    }
  }

  lemma CleanupConnection(w: World, d: nat, e: nat)
    requires d in w.datas && w.datas[d].connection.Some? && w.datas[d].connection.value in w.connections
    requires e in Cleanup(w, d).connections && e in w.connections && ConnectionOk(w, e)
    requires Holders(Cleanup(w, d), e) == Holders(w, e) - {d}
    requires w.connections[w.datas[d].connection.value].refs == 1 <==> Holders(w, w.datas[d].connection.value) == {d}
    ensures ConnectionOk(Cleanup(w, d), e)
  {
    var c := w.datas[d].connection.value;
    HolderOf(w, d, c);
    HolderOf(w, d, e);
    hide Holders;
    Singleton(Holders(w, c), d);
    assert e != c ==> Holders(w, e) - {d} == Holders(w, e);
  }

  lemma HolderOf(w: World, d: nat, e: nat)
    requires d in w.datas
    ensures d in Holders(w, e) <==> w.datas[d].connection == Some(e)
  {
  }

  /** A connection that is not authorized has one record, its client's. */
  lemma SoleHolder(w: World, d: nat)
    requires WorldOk(w) && d in w.datas && d != w.listener && !w.connections[w.datas[d].connection.value].authorized
    ensures Holders(w, w.datas[d].connection.value) == {d}
    ensures w.connections[w.datas[d].connection.value].refs == 1
    ensures w.connections[w.datas[d].connection.value].fd2 == NO_FD
    ensures w.datas[d].fd == w.connections[w.datas[d].connection.value].fd1
  {
    var c := w.datas[d].connection.value;
    assert d in Holders(w, c);
    forall e | e in Holders(w, c)
      ensures e == d
    {
    }
    assert Holders(w, c) == {d};
  }

  lemma AcceptOk(w: World, client: int, added: bool)
    requires WorldOk(w) && client !in w.used && client >= 0
    ensures WorldOk(Accept(w, client, added)) && OthersStay(w, Accept(w, client, added), w.listener)
  {
    hide ConnectionsOk, Holders;
    AcceptDatas(w, client, added);
    AcceptConnections(w, client, added);
    hide DatasOk;
  }

  lemma AcceptDatas(w: World, client: int, added: bool)
    requires DatasOk(w) && client !in w.used && client >= 0
    ensures DatasOk(Accept(w, client, added))
  {
  }

  lemma AcceptHolders(w: World, client: int, added: bool, e: nat)
    requires DatasOk(w)
    ensures Holders(Accept(w, client, added), e) == if e == w.next then {w.next + 1} else Holders(w, e)
    ensures w.next + 1 !in Holders(w, e)
  {
  }

  lemma AcceptConnections(w: World, client: int, added: bool)
    requires DatasOk(w) && ConnectionsOk(w) && client !in w.used && client >= 0
    ensures ConnectionsOk(Accept(w, client, added))
  {
    hide Holders;
    var w' := Accept(w, client, added);
    var c, d := w.next, w.next + 1;
    forall e | e in w'.connections
      ensures ConnectionOk(w', e)
    {
      AcceptHolders(w, client, added, e);
      assert e != c ==> ConnectionOk(w, e);
    }
  }

  /** Admitted, but its socket closed: the record stays behind, unwatched. */
  lemma AdmitAndCloseOk(w: World, d: nat, key: Option<string>)
    requires WorldOk(w) && d in w.datas && d != w.listener && !w.connections[w.datas[d].connection.value].authorized
    ensures var w' := CloseFd(Admit(w, w.datas[d].connection.value, key), d); WorldOk(w') && OthersStay(w, w', d)
  {
    SoleHolder(w, d);
    DataHasConnection(w, d);
    hide ConnectionsOk, Holders, RecordOk;
    AdmittedConnections(w, d, key);
    AdmittedDatas(w, d, key);
    hide DatasOk;
  }

  lemma AdmittedDatas(w: World, d: nat, key: Option<string>)
    requires DatasOk(w) && d in w.datas && w.datas[d].connection.Some? && w.datas[d].connection.value in w.connections
    ensures DatasOk(CloseFd(Admit(w, w.datas[d].connection.value, key), d))
  {
    var w' := CloseFd(Admit(w, w.datas[d].connection.value, key), d);
    assert forall e | e in w.datas && e != w.listener :: RecordOk(w, e) ==> RecordOk(w', e);
    hide RecordOk;
  }

  lemma AdmittedConnections(w: World, d: nat, key: Option<string>)
    requires ConnectionsOk(w) && d in w.datas && w.datas[d].connection.Some? &&
      w.datas[d].connection.value in w.connections
    requires Holders(w, w.datas[d].connection.value) == {d}
    ensures ConnectionsOk(CloseFd(Admit(w, w.datas[d].connection.value, key), d))
  {
    var w' := CloseFd(Admit(w, w.datas[d].connection.value, key), d);
    forall e | e in w'.connections
      ensures ConnectionOk(w', e)
    {
      assert Holders(w', e) == Holders(w, e);
      assert ConnectionOk(w, e);
    }
  }

  /** Admitted and answered from the cache: the same as dropping the connection. */
  lemma AdmitAndCleanup(w: World, d: nat, key: Option<string>)
    requires WorldOk(w) && d in w.datas && d != w.listener && !w.connections[w.datas[d].connection.value].authorized
    ensures Cleanup(Admit(w, w.datas[d].connection.value, key), d) == Cleanup(w, d)
  {
    SoleHolder(w, d);
    var c := w.datas[d].connection.value;
    assert Admit(w, c, key).connections - {c} == w.connections - {c};
  }

  lemma JoinOk(w: World, d: nat, key: Option<string>, server: int, https: bool, added: bool)
    requires WorldOk(w) && d in w.datas && d != w.listener && !w.connections[w.datas[d].connection.value].authorized
    requires server !in w.used && server >= 0
    ensures var c := w.datas[d].connection.value;
      var (w', d2) := Join(Admit(w, c, key), c, server, https, added);
      && WorldOk(w') && OthersStay(w, w', d) && d2 == w.next && d in w'.datas && w'.datas[d] == w.datas[d]
      && w'.connections[c].refs == 2 && d2 in w'.datas && w'.datas[d2].connection == Some(c)
      && d2 !in w.datas && d2 !in w.watched && d2 != w.listener && d2 != d
  {
    hide ConnectionsOk, FreedOk, Holders;
    SoleHolder(w, d);
    JoinDatas(w, d, key, server, https, added);
    JoinConnections(w, d, key, server, https, added);
    JoinOthers(w, d, key, server, https, added);
    hide DatasOk, OthersStay, Join, Admit;
  }

  lemma JoinOthers(w: World, d: nat, key: Option<string>, server: int, https: bool, added: bool)
    requires DatasOk(w) && FreedOk(w) && d in w.datas && d != w.listener
    requires w.connections[w.datas[d].connection.value].refs == 1
    ensures var c := w.datas[d].connection.value;
      var (w', d2) := Join(Admit(w, c, key), c, server, https, added);
      && FreedOk(w') && OthersStay(w, w', d) && d2 == w.next && d in w'.datas && w'.datas[d] == w.datas[d]
      && w'.connections[c].refs == 2 && d2 in w'.datas && w'.datas[d2].connection == Some(c)
      && d2 !in w.datas && d2 !in w.watched && d2 != w.listener && d2 != d
  {
  }

  lemma JoinDatas(w: World, d: nat, key: Option<string>, server: int, https: bool, added: bool)
    requires DatasOk(w) && d in w.datas && d != w.listener
    requires w.connections[w.datas[d].connection.value].fd2 == NO_FD
    requires server !in w.used && server >= 0
    ensures var c := w.datas[d].connection.value; DatasOk(Join(Admit(w, c, key), c, server, https, added).0)
  {
  }

  lemma JoinConnections(w: World, d: nat, key: Option<string>, server: int, https: bool, added: bool)
    requires DatasOk(w) && ConnectionsOk(w) && d in w.datas && d != w.listener
    requires Holders(w, w.datas[d].connection.value) == {d}
    requires server !in w.used && server >= 0
    ensures var c := w.datas[d].connection.value; ConnectionsOk(Join(Admit(w, c, key), c, server, https, added).0)
  {
    var c := w.datas[d].connection.value;
    var (w', d2) := Join(Admit(w, c, key), c, server, https, added);
    forall e | e in w'.connections
      ensures ConnectionOk(w', e)
    {
      JoinConnection(w, d, key, server, https, added, e);
    }
  }

  lemma JoinConnection(w: World, d: nat, key: Option<string>, server: int, https: bool, added: bool, e: nat)
    requires DatasOk(w) && d in w.datas && d != w.listener && e in w.connections && ConnectionOk(w, e)
    requires ConnectionOk(w, w.datas[d].connection.value) && Holders(w, w.datas[d].connection.value) == {d}
    requires server !in w.used && server >= 0
    ensures var c := w.datas[d].connection.value; ConnectionOk(Join(Admit(w, c, key), c, server, https, added).0, e)
  {
    JoinHolders(w, d, key, server, https, added);
    var c := w.datas[d].connection.value;
    if e != c {
      assert w.next !in Holders(w, e);
    }
    hide Holders, DatasOk;
  }

  lemma JoinHolders(w: World, d: nat, key: Option<string>, server: int, https: bool, added: bool)
    requires DatasOk(w) && d in w.datas && d != w.listener
    requires Holders(w, w.datas[d].connection.value) == {d}
    ensures var c := w.datas[d].connection.value;
      var (w', d2) := Join(Admit(w, c, key), c, server, https, added);
      d != d2 && forall e :: Holders(w', e) == if e == c then {d, d2} else Holders(w, e)
  {
    var c := w.datas[d].connection.value;
    var (w', d2) := Join(Admit(w, c, key), c, server, https, added);
    forall e
      ensures Holders(w', e) == if e == c then {d, d2} else Holders(w, e)
    {
      assert forall x | x in Holders(w', e) :: x == d2 || x in Holders(w, e);
    }
  }

  /** The counts do not depend on anything but who refers to whom. */
  lemma ConnectionsSame(w: World, w': World)
    requires ConnectionsOk(w) && w'.connections == w.connections && w'.watched <= w.watched && w.used <= w'.used
    requires w'.datas.Keys == w.datas.Keys && forall d | d in w.datas :: w'.datas[d].connection == w.datas[d].connection
    ensures ConnectionsOk(w')
  {
    forall c | c in w'.connections
      ensures ConnectionOk(w', c)
    {
      assert Holders(w', c) == Holders(w, c);
      assert ConnectionOk(w, c);
    }
  }

  lemma FreedSame(w: World, w': World)
    requires FreedOk(w) && w'.connections == w.connections && w'.freed == w.freed && w'.next >= w.next
    ensures FreedOk(w')
  {
  }

  lemma SetTunnelOk(w: World, d: nat)
    requires WorldOk(w) && d in w.datas
    ensures WorldOk(SetTunnel(w, d)) && OthersStay(w, SetTunnel(w, d), d)
  {
    hide ConnectionsOk, Holders, FreedOk;
    ConnectionsSame(w, SetTunnel(w, d));
    assert forall e | e in w.datas && e != w.listener :: RecordOk(w, e) ==> RecordOk(SetTunnel(w, d), e);
    hide RecordOk;
    assert DatasOk(SetTunnel(w, d));
    assert FreedOk(SetTunnel(w, d)) by { FreedSame(w, SetTunnel(w, d)); }
  }

  lemma RelayedOk(w: World, r: Relay)
    requires WorldOk(w)
    ensures WorldOk(w.(relays := w.relays + [r]))
    ensures forall d :: OthersStay(w, w.(relays := w.relays + [r]), d)
  {
    hide ConnectionsOk, Holders;
    ConnectionsSame(w, w.(relays := w.relays + [r]));
    assert forall e | e in w.datas && e != w.listener :: RecordOk(w, e) ==> RecordOk(w.(relays := w.relays + [r]), e);
  }

  lemma OthersStayTrans(w: World, w1: World, w2: World, d: nat)
    requires OthersStay(w, w1, d) && OthersStay(w1, w2, d)
    ensures OthersStay(w, w2, d)
  {
  }

  lemma AbandonOk(w: World, w2: World, d: nat, d2: nat)
    requires WorldOk(w2) && OthersStay(w, w2, d) && d2 !in w.datas && d2 !in w.watched
    requires d in w2.datas && d2 in w2.datas && d != d2 && d != w2.listener && d2 != w2.listener
    requires w2.datas[d].connection == w2.datas[d2].connection && w2.connections[w2.datas[d].connection.value].refs == 2
    ensures WorldOk(Abandon(w2, d, d2)) && OthersStay(w, Abandon(w2, d, d2), d)
  {
    CleanupOk(w2, d);
    CleanupOk(Cleanup(w2, d), d2);
  }

  lemma FirstRequestOk(w: World, d: nat, a: Answers)
    requires WorldOk(w) && d in w.datas && d != w.listener && FreshAnswers(w, a)
    requires !w.connections[w.datas[d].connection.value].authorized
    ensures WorldOk(FirstRequest(w, d, a).0) && OthersStay(w, FirstRequest(w, d, a).0, d)
  {
    var c := w.datas[d].connection.value;
    hide WorldOk, OthersStay, Cleanup, Admit, Join, SetTunnel, CloseFd;
    if a.received <= 0 || !a.authorizes {
      CleanupOk(w, d);
    } else if !a.parses {
      AdmitAndCloseOk(w, d, None);
    } else if a.key.Some? && a.cacheSent {
      CleanupOk(w, d);
      AdmitAndCleanup(w, d, a.key);
    } else if a.upstream.None? {
      AdmitAndCloseOk(w, d, a.key);
    } else {
      JoinOk(w, d, a.key, a.upstream.value, a.https, a.added);
      var (w2, d2) := Join(Admit(w, c, a.key), c, a.upstream.value, a.https, a.added);
      if a.https && a.sent > 0 {
        SetTunnelOk(w2, d);
        OthersStayTrans(w, w2, SetTunnel(w2, d), d);
      } else if a.https || a.sent < 0 {
        AbandonOk(w, w2, d, d2);
      }
    }
  }

  lemma RelayOnceOk(w: World, d: nat, a: Answers)
    requires WorldOk(w) && d in w.datas && d != w.listener
    ensures WorldOk(RelayOnce(w, d, a)) && OthersStay(w, RelayOnce(w, d, a), d)
  {
    hide WorldOk, Cleanup, OthersStay;
    StaysRefl(w, d);
    assert w.datas[d].connection.Some? && w.datas[d].connection.value in w.connections by { DataHasConnection(w, d); }
    var c, source := w.datas[d].connection.value, w.datas[d].fd;
    var target := if w.connections[c].fd1 == source then w.connections[c].fd2 else w.connections[c].fd1;
    var w1 := w.(relays := w.relays + [Relay(c, source, target)]);
    CleanupOk(w, d);
    RelayedOk(w, Relay(c, source, target));
    CleanupOk(w1, d);
    OthersStayTrans(w, w1, Cleanup(w1, d), d);
  }

  lemma DataHasConnection(w: World, d: nat)
    requires WorldOk(w) && d in w.datas && d != w.listener
    ensures w.datas[d].connection.Some? && w.datas[d].connection.value in w.connections
  {
  }

  /** Each event: the invariant is kept, and no record but the event's own is touched, so the events
      still to come in the batch find theirs as they were. */
  lemma HandleOk(w: World, e: Event)
    requires Deliverable(w, e)
    ensures WorldOk(Handle(w, e).0) && OthersStay(w, Handle(w, e).0, e.data)
  {
    hide FirstRequest, RelayOnce, Cleanup, Accept, OthersStay;
    var d := w.datas[e.data];
    if e.broken {
      CleanupOk(w, e.data);
    } else if d.fd == w.datas[w.listener].fd {
      StaysRefl(w, e.data);
      if e.answers.accepted.Some? {
        AcceptOk(w, e.answers.accepted.value, e.answers.added);
      }
    } else {
      StaysRefl(w, e.data);
      if !w.connections[d.connection.value].authorized {
        FirstRequestOk(w, e.data, e.answers);
      } else {
        RelayOnceOk(w, e.data, e.answers);
      }
    }
  }

  lemma StaysRefl(w: World, d: nat)
    ensures OthersStay(w, w, d)
  {
  }

  // ---------- batches and runs ----------

  /** The records of the events from `i` on are distinct and registered; none is a broken listener;
      the answers are fresh when their turn comes. */
  ghost predicate BatchOk(w: World, events: seq<Event>) {
    && (forall i | 0 <= i < |events| ::
      events[i].data in w.watched && (events[i].broken ==> events[i].data != w.listener))
    && (forall i, j | 0 <= i < j < |events| :: events[i].data != events[j].data)
  }

  /** A batch of distinct records: the only thing that can keep it from being served is a stale
      descriptor from the system.  Every handler finds its record alive. */
  ghost predicate AnswersFresh(w: World, events: seq<Event>)
    requires WorldOk(w) && BatchOk(w, events)
    decreases |events|
  {
    events != [] ==>
      && FreshAnswers(w, events[0].answers)
      && (HandleOk(w, events[0]);
          RestOfBatch(w, events);
          var (w1, stop) := Handle(w, events[0]);
          !stop ==> AnswersFresh(w1, events[1..]))
  }

  lemma RestOfBatch(w: World, events: seq<Event>)
    requires WorldOk(w) && BatchOk(w, events) && events != [] && FreshAnswers(w, events[0].answers)
    ensures Deliverable(w, events[0]) && BatchOk(Handle(w, events[0]).0, events[1..])
  {
    HandleOk(w, events[0]);
    hide Handle;
  }

  /** The world after a batch. */
  ghost function Serve(w: World, events: seq<Event>): World
    requires WorldOk(w) && BatchOk(w, events) && AnswersFresh(w, events)
    decreases |events|
  {
    if events == [] then w
    else
      HandleOk(w, events[0]);
      RestOfBatch(w, events);
      var (w1, stop) := Handle(w, events[0]);
      if stop then w1 else Serve(w1, events[1..])
  }

  lemma {:induction false} ServeOk(w: World, events: seq<Event>)
    requires WorldOk(w) && BatchOk(w, events) && AnswersFresh(w, events)
    ensures WorldOk(Serve(w, events)) && w.freed <= Serve(w, events).freed && w.relays <= Serve(w, events).relays
    decreases |events|
  {
    if events != [] {
      HandleOk(w, events[0]);
      RestOfBatch(w, events);
      var (w1, stop) := Handle(w, events[0]);
      if !stop {
        ServeOk(w1, events[1..]);
      }
    }
  }

  /** Any number of batches, from the loop's first epoll_wait on. */
  ghost predicate IsRun(worlds: seq<World>, batches: seq<seq<Event>>) {
    && |worlds| == |batches| + 1 && Started(worlds[0])
    && forall k | 0 <= k < |batches| ::
      WorldOk(worlds[k]) ==>
        && BatchOk(worlds[k], batches[k]) && AnswersFresh(worlds[k], batches[k])
        && worlds[k + 1] == Serve(worlds[k], batches[k])
  }

  /** Only the listener's record exists. */
  ghost predicate Started(w: World) {
    && w.datas.Keys == {w.listener} && w.datas[w.listener].connection == None && w.listener < w.next
    && w.connections == map[] && w.watched <= {w.listener} && w.freed == [] && w.relays == []
    && w.datas[w.listener].fd in w.used && NO_FD !in w.used
  }

  /** In every run, at every moment between batches: each live connection's count is the number of
      records that refer to it, and only authorized ones have an upstream. */
  lemma {:induction false} RunOk(worlds: seq<World>, batches: seq<seq<Event>>, k: nat)
    requires IsRun(worlds, batches) && k < |worlds|
    ensures WorldOk(worlds[k])
  {
    hide BatchOk, AnswersFresh, Serve;
    if k > 0 {
      hide WorldOk;
      RunOk(worlds, batches, k - 1);
      ServeOk(worlds[k - 1], batches[k - 1]);
    }
  }

  /** A connection once released is never released again and never comes back. */
  lemma {:induction false} FreedOnce(worlds: seq<World>, batches: seq<seq<Event>>, i: nat, j: nat, c: nat)
    requires IsRun(worlds, batches) && i <= j < |worlds| && c in worlds[i].freed
    ensures c !in worlds[j].connections && multiset(worlds[j].freed)[c] == 1
  {
    RunOk(worlds, batches, j);
    FreedGrows(worlds, batches, i, j);
    var m :| 0 <= m < |worlds[i].freed| && worlds[i].freed[m] == c;
    assert worlds[j].freed[m] == c;
    OnceInSeq(worlds[j].freed, m);
  }

  lemma {:induction false} FreedGrows(worlds: seq<World>, batches: seq<seq<Event>>, i: nat, j: nat)
    requires IsRun(worlds, batches) && i <= j < |worlds|
    ensures worlds[i].freed <= worlds[j].freed
    decreases j
  {
    hide WorldOk, BatchOk, AnswersFresh, Serve, Started;
    if i < j {
      FreedGrows(worlds, batches, i, j - 1);
      RunOk(worlds, batches, j - 1);
      ServeOk(worlds[j - 1], batches[j - 1]);
    }
  }

  lemma OnceInSeq(s: seq<nat>, m: nat)
    requires m < |s| && forall i, j | 0 <= i < j < |s| :: s[i] != s[j]
    ensures multiset(s)[s[m]] == 1
  {
    assert s == s[..m] + ([s[m]] + s[m + 1..]);
    assert s[m] !in s[..m] && s[m] !in s[m + 1..];
  }

  /** Something is passed on by an event if and only if it is data on an authorized connection, and then it goes
      from the end that it came from to the other one, which exists. */
  lemma RelaysExactly(w: World, e: Event)
    requires Deliverable(w, e) && e.data in w.watched
    ensures var w', a := Handle(w, e).0, e.answers;
      if !e.broken && e.data != w.listener && w.connections[w.datas[e.data].connection.value].authorized
         && a.received > 0
      then
        var c, from := w.datas[e.data].connection.value, w.datas[e.data].fd;
        var x := w.connections[c];
        && x.fd1 != x.fd2 && x.fd2 != NO_FD && (from == x.fd1 || from == x.fd2)
        && w'.relays == w.relays + [Relay(c, from, if from == x.fd1 then x.fd2 else x.fd1)]
      else w'.relays == w.relays
  {
    if e.data != w.listener {
      var c := w.datas[e.data].connection.value;
      assert ConnectionOk(w, c);
      HolderOf(w, e.data, c);
    }
  }

  /** The relay branch releases the record at the end of the data and at errors other than EAGAIN, on either side,
      and otherwise changes nothing but what it passes on. */
  lemma RelayReleasesExactly(w: World, e: Event)
    requires Deliverable(w, e) && !e.broken && e.data != w.listener
    requires w.connections[w.datas[e.data].connection.value].authorized
    ensures var w', a := Handle(w, e).0, e.answers;
      && (e.data !in w'.datas <==>
            || a.received == 0 || (a.received < 0 && !a.again)
            || (a.received > 0 && (a.sent == 0 || (a.sent < 0 && !a.again))))
      && (e.data in w'.datas ==> w' == w.(relays := w'.relays)) && !Handle(w, e).1
  {
    hide ConnectionsOk, FreedOk, Holders;
    var w1 := w.(relays := Handle(w, e).0.relays);
  }

  /** A new client: a connection without a server, and one record of it. */
  lemma AcceptExactly(w: World, e: Event)
    requires Deliverable(w, e) && e.data == w.listener
    ensures var (w', stop) := Handle(w, e);
      && !stop && w'.relays == w.relays && w'.freed == w.freed
      && (e.answers.accepted.None? ==> w' == w)
      && (e.answers.accepted.Some? ==>
            && w'.connections == w.connections[w.next :=
                 Connection(e.answers.accepted.value, -1, 1, false, false, None)]
            && w'.datas == w.datas[w.next + 1 := Data(e.answers.accepted.value, false, Some(w.next))]
            && w'.watched == w.watched + if e.answers.added then {w.next + 1} else {})
  {
    hide ConnectionsOk, FreedOk, Holders;
  }

  /** An event that reports an error releases its record, and does nothing else. */
  lemma BrokenReleases(w: World, e: Event)
    requires Deliverable(w, e) && e.broken
    ensures e.data !in Handle(w, e).0.datas && Handle(w, e).0.relays == w.relays && !Handle(w, e).1
    ensures forall d | d in w.datas && d != e.data :: d in Handle(w, e).0.datas && Handle(w, e).0.datas[d] == w.datas[d]
  {
    hide ConnectionsOk, FreedOk, Holders;
  }

  /** What becomes of a first request. */
  datatype Outcome = Refused | Answered | Unconnected | Failed | Connected

  function OutcomeOf(a: Answers): Outcome {
    if a.received <= 0 || !a.authorizes then Refused
    else if a.parses && a.key.Some? && a.cacheSent then Answered
    else if !a.parses || a.upstream.None? then Unconnected
    else if a.sent < 0 || (a.https && a.sent == 0) then Failed
    else Connected
  }

  /** The connection once its request is authorized. */
  function Admitted(x: Connection, a: Answers): Connection {
    x.(authorized := true, key := if a.parses && a.key.Some? then a.key else x.key)
  }

  /** A record of a connection of its own. */
  ghost predicate Alone(w: World, d: nat) {
    && d in w.datas && d < w.next && w.datas[d].connection.Some? && w.datas[d].connection.value in w.connections
    && w.connections[w.datas[d].connection.value].refs == 1
  }

  lemma IsAlone(w: World, d: nat)
    requires WorldOk(w) && d in w.datas && d != w.listener && !w.connections[w.datas[d].connection.value].authorized
    ensures Alone(w, d)
  {
    SoleHolder(w, d);
    hide ConnectionsOk, FreedOk, Holders;
  }

  lemma FirstRequestGone(w: World, d: nat, a: Answers)
    requires Alone(w, d)
    ensures var c := w.datas[d].connection.value;
      c !in FirstRequest(w, d, a).0.connections <==> OutcomeOf(a) in {Refused, Answered, Failed}
    ensures FirstRequest(w, d, a).1 <==> OutcomeOf(a) == Answered
  {
  }

  lemma FirstRequestLeft(w: World, d: nat, a: Answers)
    requires Alone(w, d) && OutcomeOf(a) == Unconnected
    ensures var c := w.datas[d].connection.value;
      FirstRequest(w, d, a).0
      == w.(connections := w.connections[c := Admitted(w.connections[c], a)], watched := w.watched - {d})
  {
  }

  lemma FirstRequestConnects(w: World, d: nat, a: Answers)
    requires Alone(w, d) && OutcomeOf(a) == Connected
    ensures var c, w' := w.datas[d].connection.value, FirstRequest(w, d, a).0;
      && w'.connections == w.connections[c :=
           Admitted(w.connections[c], a).(fd2 := a.upstream.value, https := a.https, refs := 2)]
      && w'.datas == w.datas[w.next := Data(a.upstream.value, false, Some(c))]
                            [d := if a.https then w.datas[d].(tunnel := true) else w.datas[d]]
      && w'.watched == w.watched + if a.added then {w.next} else {}
  {
    var c := w.datas[d].connection.value;
    var w1 := Admit(w, c, a.key);
    var (w2, d2) := Join(w1, c, a.upstream.value, a.https, a.added);
    assert d2 == w.next && w2.datas == w.datas[w.next := Data(a.upstream.value, false, Some(c))];
    assert w2.connections == w.connections[c :=
      Admitted(w.connections[c], a).(fd2 := a.upstream.value, https := a.https, refs := 2)];
    assert w2.datas[d := w2.datas[d]] == w2.datas;
  }

  /** A first request, exactly: the connection is gone when it is refused, answered from the cache, or its first send
      fails; it is left with its client alone, out of epoll's sight, when there is no server; and otherwise it has a
      second record for the server.  The rest of the batch is skipped after an answer from the cache only. */
  lemma FirstRequestExactly(w: World, e: Event)
    requires Deliverable(w, e) && !e.broken && e.data != w.listener && !w.datas[e.data].tunnel
    requires !w.connections[w.datas[e.data].connection.value].authorized
    ensures var d, c, a := e.data, w.datas[e.data].connection.value, e.answers;
      var (w', stop) := Handle(w, e);
      && (stop <==> OutcomeOf(a) == Answered)
      && (c !in w'.connections <==> OutcomeOf(a) in {Refused, Answered, Failed})
      && (OutcomeOf(a) == Unconnected ==>
            w' == w.(connections := w.connections[c := Admitted(w.connections[c], a)], watched := w.watched - {d}))
      && (OutcomeOf(a) == Connected ==>
            && w'.connections == w.connections[c :=
                 Admitted(w.connections[c], a).(fd2 := a.upstream.value, https := a.https, refs := 2)]
            && w'.datas == w.datas[w.next := Data(a.upstream.value, false, Some(c))]
                                  [d := if a.https then w.datas[d].(tunnel := true) else w.datas[d]]
            && w'.watched == w.watched + if a.added then {w.next} else {})
  {
    var d, a := e.data, e.answers;
    SoleHolder(w, d);
    IsAlone(w, d);
    hide ConnectionsOk, FreedOk, Holders, FreshAnswers;
    assert Handle(w, e) == FirstRequest(w, d, a) by { hide FirstRequest, RelayOnce, Cleanup, Accept; }
    hide Handle, FirstRequest, DatasOk, Admitted;
    FirstRequestGone(w, d, a);
    if OutcomeOf(a) == Unconnected {
      FirstRequestLeft(w, d, a);
    } else if OutcomeOf(a) == Connected {
      FirstRequestConnects(w, d, a);
    }
  }

  // ---------- which connections are never released ----------

  /** Some record of the connection is not registered with epoll: no event will ever come for it. */
  ghost predicate Stuck(w: World, c: nat) {
    !(Holders(w, c) <= w.watched)
  }

  /** The client's request got past the authorization, and then its own socket was closed, or the
      server's was not registered. */
  predicate Loses(a: Answers) {
    && a.received > 0 && a.authorizes
    && (!a.parses
        || (!(a.key.Some? && a.cacheSent)
            && (a.upstream.None? || (!a.added && (if a.https then a.sent > 0 else a.sent >= 0)))))
  }

  /** The event that makes a connection stuck. */
  ghost predicate Leaves(w: World, e: Event, c: nat)
    requires Deliverable(w, e)
  {
    if e.data == w.listener then
      e.answers.accepted.Some? && !e.answers.added && c == w.next
    else
      && !e.broken && w.datas[e.data].connection == Some(c) && !w.connections[c].authorized
      && !w.datas[e.data].tunnel && Loses(e.answers)
  }

  /** A live connection becomes stuck at an event if and only if that event is one of those. */
  lemma HandleLeavesExactly(w: World, e: Event, c: nat)
    requires Deliverable(w, e) && e.data in w.watched && !Stuck(w, c)
    ensures c in Handle(w, e).0.connections && Stuck(Handle(w, e).0, c) <==> Leaves(w, e, c)
  {
    hide FirstRequest, RelayOnce, Cleanup, Accept, Stuck, ConnectionsOk, Holders, FreedOk;
    if e.data == w.listener {
      if e.answers.accepted.Some? {
        AcceptLeaves(w, e.answers.accepted.value, e.answers.added, c);
      }
    } else if e.broken {
      CleanupFrees(w, e.data, c);
    } else if w.connections[w.datas[e.data].connection.value].authorized {
      RelayFrees(w, e.data, e.answers, c);
    } else {
      SoleHolder(w, e.data);
      if !w.datas[e.data].tunnel {
        FirstRequestLeaves(w, e.data, e.answers, c);
      }
    }
  }

  lemma AcceptLeaves(w: World, client: int, added: bool, c: nat)
    requires WorldOk(w) && client !in w.used && client >= 0 && !Stuck(w, c)
    ensures c in Accept(w, client, added).connections && Stuck(Accept(w, client, added), c) <==> !added && c == w.next
  {
    AcceptHolders(w, client, added, c);
    hide ConnectionsOk, FreedOk, RecordOk, Holders;
  }

  lemma CleanupFrees(w: World, d: nat, c: nat)
    requires WorldOk(w) && d in w.datas && d != w.listener && !Stuck(w, c)
    ensures !Stuck(Cleanup(w, d), c)
  {
    HoldersAfterCleanup(w, d, c);
  }

  lemma RelayFrees(w: World, d: nat, a: Answers, c: nat)
    requires WorldOk(w) && d in w.datas && d != w.listener && !Stuck(w, c)
    ensures !Stuck(RelayOnce(w, d, a), c)
  {
    hide Cleanup, WorldOk, Stuck;
    assert w.datas[d].connection.Some? && w.datas[d].connection.value in w.connections by { DataHasConnection(w, d); }
    var x, source := w.datas[d].connection.value, w.datas[d].fd;
    var target := if w.connections[x].fd1 == source then w.connections[x].fd2 else w.connections[x].fd1;
    var w1 := w.(relays := w.relays + [Relay(x, source, target)]);
    RelayedOk(w, Relay(x, source, target));
    SameHolders(w, w1, c);
    CleanupFrees(w, d, c);
    CleanupFrees(w1, d, c);
  }

  lemma SameHolders(w: World, w': World, c: nat)
    requires w'.datas.Keys == w.datas.Keys && w'.watched == w.watched
    requires forall d | d in w.datas :: w'.datas[d].connection == w.datas[d].connection
    ensures Stuck(w', c) <==> Stuck(w, c)
  {
    assert Holders(w', c) == Holders(w, c);
  }

  lemma FirstRequestLeaves(w: World, d: nat, a: Answers, c: nat)
    requires WorldOk(w) && d in w.watched && d != w.listener && FreshAnswers(w, a) && !Stuck(w, c)
    requires d in w.datas && !w.connections[w.datas[d].connection.value].authorized
    ensures c in FirstRequest(w, d, a).0.connections && Stuck(FirstRequest(w, d, a).0, c)
      <==> w.datas[d].connection == Some(c) && Loses(a)
  {
    hide Cleanup, Admit, CloseFd, Stuck, Upgrade, ConnectionsOk, FreedOk, Holders;
    var x := w.datas[d].connection.value;
    SoleHolder(w, d);
    if a.received <= 0 || !a.authorizes {
      CleanupFrees(w, d, c);
    } else if !a.parses {
      CloseLeaves(w, d, None, c);
    } else if a.key.Some? && a.cacheSent {
      AdmitAndCleanup(w, d, a.key);
      CleanupFrees(w, d, c);
    } else if a.upstream.None? {
      CloseLeaves(w, d, a.key, c);
    } else {
      UpgradeLeaves(w, d, a, c);
    }
  }

  lemma CloseLeaves(w: World, d: nat, key: Option<string>, c: nat)
    requires WorldOk(w) && d in w.datas && d != w.listener && !Stuck(w, c)
    requires !w.connections[w.datas[d].connection.value].authorized
    ensures var w' := CloseFd(Admit(w, w.datas[d].connection.value, key), d);
      c in w'.connections && Stuck(w', c) <==> w.datas[d].connection == Some(c)
  {
    SoleHolder(w, d);
    var w' := CloseFd(Admit(w, w.datas[d].connection.value, key), d);
    assert Holders(w', c) == Holders(w, c);
    HolderOf(w, d, c);
  }

  lemma UpgradeLeaves(w: World, d: nat, a: Answers, c: nat)
    requires WorldOk(w) && d in w.watched && d in w.datas && d != w.listener && !Stuck(w, c)
    requires !w.connections[w.datas[d].connection.value].authorized
    requires a.upstream.Some? && a.upstream.value !in w.used && a.upstream.value >= 0
    requires w.connections[w.datas[d].connection.value].refs > 0
    ensures var x := w.datas[d].connection.value;
      var w' := Upgrade(Admit(w, x, a.key), d, x, a);
      c in w'.connections && Stuck(w', c) <==> c == x && !a.added && (if a.https then a.sent > 0 else a.sent >= 0)
  {
    var x := w.datas[d].connection.value;
    hide Holders, Stuck, OthersStay, ConnectionsOk, FreedOk;
    SoleHolder(w, d);
    JoinOk(w, d, a.key, a.upstream.value, a.https, a.added);
    JoinLeaves(w, d, a.key, a.upstream.value, a.https, a.added, c);
    var (w2, d2) := Join(Admit(w, x, a.key), x, a.upstream.value, a.https, a.added);
    hide Join, WorldOk;
    SettleLeaves(w2, d, d2, a, c);
    assert Upgrade(Admit(w, x, a.key), d, x, a) == Settle(w2, d, d2, a);
  }

  lemma SettleLeaves(w: World, d: nat, d2: nat, a: Answers, c: nat)
    requires WorldOk(w) && d in w.datas && d2 in w.datas && d != d2 && d != w.listener && d2 != w.listener
    requires w.datas[d].connection == w.datas[d2].connection && w.connections[w.datas[d].connection.value].refs == 2
    requires Holders(w, w.datas[d].connection.value) == {d, d2}
    requires w.datas[d].connection != Some(c) ==> !Stuck(w, c)
    ensures var w' := Settle(w, d, d2, a);
      (c in w'.connections && Stuck(w', c))
      <==> (c in w.connections && Stuck(w, c) && (if a.https then a.sent > 0 else a.sent >= 0))
  {
    hide Abandon, Stuck, ConnectionsOk, FreedOk;
    AbandonFrees(w, d, d2, c);
    SameHolders(w, SetTunnel(w, d), c);
  }

  lemma JoinLeaves(w: World, d: nat, key: Option<string>, server: int, https: bool, added: bool, c: nat)
    requires DatasOk(w) && d in w.watched && d in w.datas && d != w.listener && !Stuck(w, c)
    requires Holders(w, w.datas[d].connection.value) == {d}
    ensures var x := w.datas[d].connection.value;
      var w' := Join(Admit(w, x, key), x, server, https, added).0;
      && x in w'.connections && (Stuck(w', c) <==> c == x && !added)
      && (c != x ==> Holders(w', c) <= w'.watched)
      && Holders(w', x) == {d, w.next}
  {
    JoinHolders(w, d, key, server, https, added);
  }

  lemma AbandonFrees(w: World, d: nat, d2: nat, c: nat)
    requires WorldOk(w) && d in w.datas && d2 in w.datas && d != d2 && d != w.listener && d2 != w.listener
    requires w.datas[d].connection == w.datas[d2].connection
    requires Holders(w, w.datas[d].connection.value) == {d, d2}
    requires w.datas[d].connection != Some(c) ==> !Stuck(w, c)
    ensures var w' := Abandon(w, d, d2); !(c in w'.connections && Stuck(w', c))
  {
    CleanupOk(w, d);
    CleanupCounts(w, d);
    CleanupOk(Cleanup(w, d), d2);
    HoldersAfterCleanup(w, d, c);
    HoldersAfterCleanup(Cleanup(w, d), d2, c);
  }

  /** A record that no event can reach stays as it is, whatever is handled. */
  lemma HandlePasses(w: World, e: Event, d: nat)
    requires Deliverable(w, e) && e.data in w.watched
    requires d in w.datas && d !in w.watched
    ensures d in Handle(w, e).0.datas && Handle(w, e).0.datas[d] == w.datas[d] && d !in Handle(w, e).0.watched
  {
    HandleOk(w, e);
    WatchesNew(w, e, d);
    hide Handle;
  }

  lemma WatchesNew(w: World, e: Event, d: nat)
    requires Deliverable(w, e) && d in w.datas && d !in w.watched
    ensures d !in Handle(w, e).0.watched
  {
    hide ConnectionsOk, FreedOk, Holders;
  }

  /** A stuck connection stays so, through any batch. */
  lemma {:induction false} StuckStays(w: World, events: seq<Event>, c: nat)
    requires WorldOk(w) && BatchOk(w, events) && AnswersFresh(w, events)
    requires c in w.connections && Stuck(w, c)
    ensures c in Serve(w, events).connections && Stuck(Serve(w, events), c)
    decreases |events|
  {
    if events != [] {
      hide Handle, WorldOk;
      HandleOk(w, events[0]);
      RestOfBatch(w, events);
      StuckPasses(w, events[0], c);
      var (w1, stop) := Handle(w, events[0]);
      if !stop {
        StuckStays(w1, events[1..], c);
      }
    }
  }

  lemma StuckPasses(w: World, e: Event, c: nat)
    requires Deliverable(w, e) && e.data in w.watched && c in w.connections && Stuck(w, c)
    ensures c in Handle(w, e).0.connections && Stuck(Handle(w, e).0, c)
  {
    hide Handle, ConnectionsOk, FreedOk;
    var d :| d in Holders(w, c) && d !in w.watched;
    HandlePasses(w, e, d);
    HandleOk(w, e);
    var w' := Handle(w, e).0;
    HolderOf(w', d, c);
    DataHasConnection(w', d);
  }

  /** In every run a stuck connection is never released. */
  lemma {:induction false} LeakedForever(worlds: seq<World>, batches: seq<seq<Event>>, i: nat, j: nat, c: nat)
    requires IsRun(worlds, batches) && i <= j < |worlds| && c in worlds[i].connections && Stuck(worlds[i], c)
    ensures c in worlds[j].connections && Stuck(worlds[j], c)
    decreases j
  {
    hide WorldOk, BatchOk, AnswersFresh, Serve, Started, Stuck;
    if i < j {
      LeakedForever(worlds, batches, i, j - 1, c);
      RunOk(worlds, batches, j - 1);
      StuckStays(worlds[j - 1], batches[j - 1], c);
    }
  }

  /** The peer behind a record hangs up. */
  function Hangup(d: nat): Event {
    Event(d, true, Answers(None, false, 0, false, false, false, None, false, None, false, 0))
  }

  function Hangups(s: seq<nat>): (events: seq<Event>)
    ensures |events| == |s| && forall i | 0 <= i < |s| :: events[i] == Hangup(s[i])
  {
    if s == [] then [] else [Hangup(s[0])] + Hangups(s[1..])
  }

  ghost predicate Releases(w: World, events: seq<Event>, c: nat)
    requires WorldOk(w)
  {
    BatchOk(w, events) && AnswersFresh(w, events) && c !in Serve(w, events).connections
  }

  /** Each of the records once. */
  ghost predicate Lists(s: seq<nat>, held: set<nat>) {
    (forall d :: d in s <==> d in held) && forall i, j | 0 <= i < j < |s| :: s[i] != s[j]
  }

  lemma {:induction false} HangupsRelease(w: World, s: seq<nat>, c: nat)
    requires WorldOk(w) && !Stuck(w, c) && Lists(s, Holders(w, c))
    ensures Releases(w, Hangups(s), c)
    decreases |s|
  {
    hide Handle, Cleanup, Lists, DatasOk, FreedOk, Stuck, BatchOk;
    HangupsInBatch(w, s, c);
    if s == [] {
      NoHolders(w, c);
    } else {
      var d, events := s[0], Hangups(s);
      ListsRest(s, Holders(w, c));
      HangupHandled(w, d, c);
      RestOfBatch(w, events);
      assert events[1..] == Hangups(s[1..]);
      var w1 := Handle(w, events[0]).0;
      hide WorldOk, Holders;
      HangupsRelease(w1, s[1..], c);
    }
  }

  lemma NoHolders(w: World, c: nat)
    requires WorldOk(w) && Lists([], Holders(w, c))
    ensures c !in w.connections
  {
    assert Holders(w, c) == {};
  }

  lemma HangupHandled(w: World, d: nat, c: nat)
    requires WorldOk(w) && d in Holders(w, c) && !Stuck(w, c)
    ensures Deliverable(w, Hangup(d)) && Handle(w, Hangup(d)) == (Cleanup(w, d), false) && WorldOk(Cleanup(w, d))
    ensures !Stuck(Cleanup(w, d), c) && Holders(Cleanup(w, d), c) == Holders(w, c) - {d}
  {
    hide ConnectionsOk, FreedOk;
    CleanupOk(w, d);
    CleanupFrees(w, d, c);
    HoldersAfterCleanup(w, d, c);
  }

  lemma HangupsInBatch(w: World, s: seq<nat>, c: nat)
    requires WorldOk(w) && !Stuck(w, c) && Lists(s, Holders(w, c))
    ensures BatchOk(w, Hangups(s))
  {
    hide ConnectionsOk, FreedOk;
    forall i | 0 <= i < |s|
      ensures s[i] in w.watched && s[i] != w.listener
    {
      assert s[i] in Holders(w, c);
    }
    hide DatasOk, Holders, Stuck;
  }

  lemma ListsRest(s: seq<nat>, held: set<nat>)
    requires Lists(s, held) && s != []
    ensures s[0] in held && Lists(s[1..], held - {s[0]})
  {
  }

  lemma {:induction false} Listing(held: set<nat>) returns (s: seq<nat>)
    ensures Lists(s, held)
    decreases |held|
  {
    if held == {} {
      s := [];
    } else {
      var d :| d in held;
      var rest := Listing(held - {d});
      s := [d] + rest;
    }
  }

  /** A live connection can still be released if and only if all its records are registered: then the
      hangups of its ends release it, otherwise no batch does. */
  lemma ReleasableExactly(w: World, c: nat)
    requires WorldOk(w) && c in w.connections
    ensures !Stuck(w, c) <==> exists events :: Releases(w, events, c)
  {
    hide WorldOk, Stuck, Holders, BatchOk, AnswersFresh, Serve;
    if Stuck(w, c) {
      forall events
        ensures !Releases(w, events, c)
      {
        if BatchOk(w, events) && AnswersFresh(w, events) {
          StuckStays(w, events, c);
        }
      }
    } else {
      var s := Listing(Holders(w, c));
      HangupsRelease(w, s, c);
    }
  }

  // ---------- a run that leaks a connection ----------

  /** The listener alone. */
  function First(): World {
    World(0, map[], map[0 := Data(3, false, None)], {0}, 1, {3}, [], [])
  }

  /** A client connects, and then sends an authorized request that does not parse. */
  function Connects(): Event {
    Event(0, false, Answers(Some(4), true, 0, false, false, false, None, false, None, false, 0))
  }

  function SendsNonsense(): Event {
    Event(2, false, Answers(None, false, 1, false, true, false, None, false, None, false, 0))
  }

  /** One event as a batch. */
  lemma ServeOne(w: World, e: Event)
    requires Deliverable(w, e) && e.data in w.watched
    ensures BatchOk(w, [e]) && AnswersFresh(w, [e]) && Serve(w, [e]) == Handle(w, e).0
    ensures WorldOk(Handle(w, e).0)
  {
    hide WorldOk, Handle, FreshAnswers;
    HandleOk(w, e);
    RestOfBatch(w, [e]);
    assert [e][1..] == [];
  }

  lemma FirstAccepted()
    ensures Deliverable(First(), Connects()) && Started(First()) && Connects().data in First().watched
    ensures var w := Handle(First(), Connects()).0;
      && w.connections == map[1 := Connection(4, NO_FD, 1, false, false, None)] && w.listener == 0
      && w.datas == First().datas[2 := Data(4, false, Some(1))] && w.watched == {0, 2}
  {
  }

  lemma ThenStuck(w: World)
    requires WorldOk(w) && w.connections == map[1 := Connection(4, NO_FD, 1, false, false, None)] && w.listener == 0
    requires w.datas == First().datas[2 := Data(4, false, Some(1))] && w.watched == {0, 2}
    ensures Deliverable(w, SendsNonsense())
    ensures 1 in Handle(w, SendsNonsense()).0.connections && Stuck(Handle(w, SendsNonsense()).0, 1)
  {
    hide WorldOk, Handle;
    assert Holders(w, 1) == {2};
    HandleLeavesExactly(w, SendsNonsense(), 1);
  }

  /** Two batches after the start there is a connection that will never be released. */
  lemma LeakReached() returns (worlds: seq<World>, batches: seq<seq<Event>>)
    ensures IsRun(worlds, batches) && |batches| == 2
    ensures 1 in worlds[2].connections && Stuck(worlds[2], 1)
  {
    hide Handle, First, WorldOk, Serve, BatchOk, AnswersFresh, Started, Stuck, FreshAnswers;
    FirstAccepted();
    ServeOne(First(), Connects());
    var w := Handle(First(), Connects()).0;
    ThenStuck(w);
    ServeOne(w, SendsNonsense());
    worlds, batches := [First(), w, Handle(w, SendsNonsense()).0], [[Connects()], [SendsNonsense()]];
  }

  // ---------- the program ----------

  class EventLoop {
    var listener: nat
    var connections: map<nat, Connection>
    var datas: map<nat, Data>
    var watched: set<nat>
    var next: nat
    var used: set<int>
    var freed: seq<nat>
    var relays: seq<Relay>

    ghost function Now(): World
      reads this
    {
      World(listener, connections, datas, watched, next, used, freed, relays)
    }

    method CreateConn(client: int, server: int) returns (c: nat)
      modifies this
      ensures (Now(), c) == CreateConnection(old(Now()), client, server)
    {
      c := next;
      connections := connections[c := Connection(client, server, 0, false, false, None)];
      next := next + 1;
    }

    method CreateRecord(fd: int, c: nat) returns (d: nat)
      requires c in connections
      modifies this
      ensures (Now(), d) == CreateData(old(Now()), fd, c)
    {
      d := next;
      connections := connections[c := connections[c].(refs := connections[c].refs + 1)];
      datas := datas[d := Data(fd, false, Some(c))];
      next := next + 1;
    }

    method AddToEpoll(d: nat, added: bool)
      modifies this
      ensures Now() == Watch(old(Now()), d, added)
    {
      if added {
        watched := watched + {d};
      }
    }

    method CleanupConnection(d: nat)
      requires d in datas && datas[d].connection.Some? && datas[d].connection.value in connections
      modifies this
      ensures Now() == Cleanup(old(Now()), d)
    {
      watched := watched - {d};
      var c := datas[d].connection.value;
      connections := connections[c := connections[c].(refs := connections[c].refs - 1)];
      if connections[c].refs == 0 {
        assert connections - {c} == old(connections) - {c};
        connections := connections - {c};
        freed := freed + [c];
      }
      datas := datas - {d};
    }

    /** The body of the loop over a batch; the answer is whether `break` leaves that loop. */
    method HandleEvent(e: Event) returns (stop: bool)
      requires Deliverable(Now(), e)
      modifies this
      ensures (Now(), stop) == Handle(old(Now()), e)
    {
      hide Cleanup, CreateData, CreateConnection, Watch;
      var d, a := e.data, e.answers;
      if e.broken {
        CleanupConnection(d);
        return false;
      }
      if datas[d].fd == datas[listener].fd {
        if a.accepted.None? {
          return false;
        }
        AcceptClient(a.accepted.value, a.added);
        return false;
      }
      var c := datas[d].connection.value;
      if datas[d].fd == connections[c].fd1 && !datas[d].tunnel && !connections[c].authorized {
        stop := ServeFirst(d, a);
      } else if connections[c].authorized {
        RelayData(d, a);
        stop := false;
      } else {
        stop := false;
      }
    }

    method AcceptClient(client: int, added: bool)
      modifies this
      ensures Now() == Accept(old(Now()), client, added)
    {
      used := used + {client};
      var c := CreateConn(client, NO_FD);
      var d := CreateRecord(client, c);
      AddToEpoll(d, added);
    }

    /** The first request of a client. */
    method ServeFirst(d: nat, a: Answers) returns (stop: bool)
      requires d in datas && d < next && datas[d].connection.Some? && datas[d].connection.value in connections
      requires connections[datas[d].connection.value].refs > 0
      modifies this
      ensures (Now(), stop) == FirstRequest(old(Now()), d, a)
    {
      var c := datas[d].connection.value;
      if a.received <= 0 {
        CleanupConnection(d);
        return false;
      }
      if !a.authorizes {
        CleanupConnection(d);
        return false;
      }
      connections := connections[c := connections[c].(authorized := true)];
      if !a.parses {
        watched := watched - {d};
        return false;
      }
      if a.key.Some? {
        connections := connections[c := connections[c].(key := a.key)];
        assert connections == old(connections)[c := connections[c]];
        if a.cacheSent {
          CleanupConnection(d);
          return true;
        }
      }
      if a.upstream.None? {
        watched := watched - {d};
        return false;
      }
      stop := false;
      Upstream(d, c, a);
    }

    /** The rest of the first request, once the server is connected. */
    method Upstream(d: nat, c: nat, a: Answers)
      requires d in datas && d < next && datas[d].connection == Some(c) && c in connections && connections[c].refs > 0
      requires a.upstream.Some?
      modifies this
      ensures Now() == Upgrade(old(Now()), d, c, a)
    {
      hide Cleanup;
      var server := a.upstream.value;
      used := used + {server};
      connections := connections[c := connections[c].(fd2 := server, https := a.https)];
      var d2 := CreateRecord(server, c);
      AddToEpoll(d2, a.added);
      if a.https {
        if a.sent <= 0 {
          DropBoth(d, d2);
        } else {
          datas := datas[d := datas[d].(tunnel := true)];
        }
      } else if a.sent < 0 {
        DropBoth(d, d2);
      }
    }

    method DropBoth(d: nat, d2: nat)
      requires d in datas && d2 in datas && d != d2
      requires datas[d].connection.Some? && datas[d].connection == datas[d2].connection
      requires datas[d].connection.value in connections && connections[datas[d].connection.value].refs != 1
      modifies this
      ensures Now() == Abandon(old(Now()), d, d2)
    {
      CleanupConnection(d);
      CleanupConnection(d2);
    }

    method RelayData(d: nat, a: Answers)
      requires d in datas && datas[d].connection.Some? && datas[d].connection.value in connections
      modifies this
      ensures Now() == RelayOnce(old(Now()), d, a)
    {
      var c := datas[d].connection.value;
      var source := datas[d].fd;
      var target := if connections[c].fd1 == source then connections[c].fd2 else connections[c].fd1;
      if a.received == 0 {
        CleanupConnection(d);
      } else if a.received < 0 {
        if a.again {
          return;
        }
        CleanupConnection(d);
      } else {
        relays := relays + [Relay(c, source, target)];
        if a.sent == 0 {
          CleanupConnection(d);
        } else if a.sent < 0 {
          if a.again {
            return;
          }
          CleanupConnection(d);
        }
      }
    }

    /** The loop over one batch. */
    method ServeBatch(events: seq<Event>)
      requires WorldOk(Now()) && BatchOk(Now(), events) && AnswersFresh(Now(), events)
      modifies this
      ensures Now() == Serve(old(Now()), events) && WorldOk(Now())
    {
      hide Handle, WorldOk, BatchOk;
      ServeOk(Now(), events);
      var i := 0;
      assert events[0..] == events;
      while i < |events|
        invariant i <= |events| && WorldOk(Now()) && BatchOk(Now(), events[i..]) && AnswersFresh(Now(), events[i..])
        invariant Serve(Now(), events[i..]) == Serve(old(Now()), events)
      {
        assert events[i..][0] == events[i] && events[i..][1..] == events[i + 1..];
        RestOfBatch(Now(), events[i..]);
        HandleOk(Now(), events[i]);
        var stop := HandleEvent(events[i]);
        if stop {
          break;
        }
        i := i + 1;
      }
    }
  }
}
