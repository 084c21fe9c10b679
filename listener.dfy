/** The listener of the game server: it owns the accept socket, the roster of connections and
    the roster of playing routers, decides whether an incoming client is admitted, routes each
    new connection, and on every tick updates the routers and closes dormant connections.
    The collaborators (connection objects, the global chat channel, the matchmaker, the
    routers' own update) appear only as entries in a ghost event log. */
module Listener {
  import opened JsBuiltins

  /** The settings the listener reads. `listenerAcceptedOrigins` is `None` when no origin
      allow-list is configured. */
  datatype Settings = Settings(
    listeningPort: int,
    listenerAcceptedOrigins: Option<string>,
    listenerMaxConnections: int,
    listenerMaxClientDormancy: int,
    matchmakerNeedsQueuing: bool)

  /** What `verifyClient` passes to its `response` callback. */
  datatype Verdict = Accepted | Rejected(code: int, reason: string)

  /** Status 403 of RFC 9110 section 15.5.4, sent when the origin is not allowed. */
  const ForbiddenCode := 403
  const ForbiddenReason := "Forbidden"
  /** Status 503 of RFC 9110 section 15.6.4, sent when the server is at capacity. */
  const UnavailableCode := 503
  const UnavailableReason := "Service Unavailable"
  /** Close code 1003 of RFC 6455 section 7.4.1, used to evict a dormant client. */
  const DormancyCloseCode := 1003
  const DormancyCloseReason := "Maximum dormancy time exceeded"
  const QueuingNotice := "This server requires players to be queued."
  const SpawnHint := "Try spawning to enqueue."

  /** The accept socket, reduced to the port it was bound on. */
  datatype SocketServer = SocketServer(port: int)

  /** One accepted client; only the time of its last activity matters to the listener, which
      reads it and never changes it. */
  class Connection {
    const lastActivityTime: int

    constructor (lastActivityTime: int)
      ensures this.lastActivityTime == lastActivityTime
    {
      this.lastActivityTime := lastActivityTime;
    }
  }

  /** One gameplay session, known to the listener only by identity. */
  class PlayingRouter {
    constructor ()
    {
    }
  }

  /** The effects on collaborators that the listener causes, in the order it causes them. */
  datatype Event =
    | CreatePlayer(connection: Connection)
    | ChatAdd(connection: Connection)
    | ChatRemove(connection: Connection)
    | DirectMessage(to: Connection, text: string)
    | Enqueue(connection: Connection)
    | RouterUpdate(router: PlayingRouter)
    | CloseSocket(connection: Connection, code: int, reason: string)

  /** The admission decision: the origin allow-list (when configured) is consulted first, by
      exact match against its space-separated tokens; only then the capacity, with a strict
      `>`, so a roster already holding exactly the maximum still admits one more client. */
  function Verify(acceptedOrigins: Option<string>, origin: string, connectionCount: nat,
                  maxConnections: int): (v: Verdict)
    ensures v == Rejected(ForbiddenCode, ForbiddenReason) <==>
              acceptedOrigins.Some? && origin !in Split(acceptedOrigins.value, ' ')
    ensures v == Rejected(UnavailableCode, UnavailableReason) <==>
              (acceptedOrigins.None? || origin in Split(acceptedOrigins.value, ' ')) &&
              connectionCount > maxConnections
    ensures v == Accepted <==>
              (acceptedOrigins.None? || origin in Split(acceptedOrigins.value, ' ')) &&
              connectionCount <= maxConnections
  {
    if acceptedOrigins.Some? && origin !in Split(acceptedOrigins.value, ' ') then
      Rejected(ForbiddenCode, ForbiddenReason)
    else if connectionCount > maxConnections then
      Rejected(UnavailableCode, UnavailableReason)
    else
      Accepted
  }

  /** Origins that are not listed are refused whatever the load; listed ones are refused only
      for capacity, and admitted at any count up to and including the maximum. */
  lemma OriginCheckComesFirst(origins: string, origin: string, count: nat, max: int)
    ensures origin !in Split(origins, ' ') ==>
              Verify(Some(origins), origin, count, max) == Rejected(ForbiddenCode, ForbiddenReason)
    ensures origin in Split(origins, ' ') ==>
              Verify(Some(origins), origin, count, max) == Verify(None, origin, count, max)
    ensures Verify(None, origin, count, max).Rejected? <==> count > max
  {
  }

  /** The three effects `onConnection` has on collaborators after registering the connection:
      two direct chat messages when the server requires explicit queuing, one hand-over to
      the matchmaker otherwise; never both. */
  function Routing(c: Connection, needsQueuing: bool): (r: seq<Event>)
    ensures |r| == if needsQueuing then 2 else 1
    ensures forall i :: 0 <= i < |r| ==> r[i].DirectMessage? == needsQueuing
    ensures forall i :: 0 <= i < |r| ==> r[i].Enqueue? == !needsQueuing
    ensures Enqueue(c) in r <==> !needsQueuing
    ensures forall i :: 0 <= i < |r| && r[i].DirectMessage? ==> r[i].to == c
    ensures needsQueuing ==> r[0].text == QueuingNotice && r[1].text == SpawnHint
  {
    if needsQueuing then [DirectMessage(c, QueuingNotice), DirectMessage(c, SpawnHint)]
    else [Enqueue(c)]
  }

  /** Routers that stay connected, in roster order. */
  function Live(routers: seq<PlayingRouter>, disconnecting: set<PlayingRouter>): (r: seq<PlayingRouter>)
    ensures |r| <= |routers|
    decreases |routers|
  {
    if |routers| == 0 then []
    else
      var last := routers[|routers| - 1];
      Live(routers[..|routers| - 1], disconnecting) + (if last in disconnecting then [] else [last])
  }

  /** The router updates of one scan: one per router, in roster order. */
  function RouterTicks(routers: seq<PlayingRouter>): (r: seq<Event>)
    decreases |routers|
  {
    if |routers| == 0 then []
    else RouterTicks(routers[..|routers| - 1]) + [RouterUpdate(routers[|routers| - 1])]
  }

  /** The sockets the dormancy scan closes, in roster order: exactly the connections idle for
      at least the maximum dormancy at time `now`, each with close code 1003. */
  function DormancyCloses(cs: seq<Connection>, now: int, maxDormancy: int): (r: seq<Event>)
    ensures |r| <= |cs|
    decreases |cs|
  {
    if |cs| == 0 then []
    else
      var last := cs[|cs| - 1];
      DormancyCloses(cs[..|cs| - 1], now, maxDormancy) +
      (if now - last.lastActivityTime < maxDormancy then []
       else [CloseSocket(last, DormancyCloseCode, DormancyCloseReason)])
  }

  /** The routers kept are exactly those of the roster outside `disconnecting`. */
  lemma {:induction false} LiveMembers(routers: seq<PlayingRouter>, disconnecting: set<PlayingRouter>)
    ensures forall i :: 0 <= i < |Live(routers, disconnecting)| ==>
              Live(routers, disconnecting)[i] in routers && Live(routers, disconnecting)[i] !in disconnecting
    ensures forall i :: 0 <= i < |routers| && routers[i] !in disconnecting ==>
              routers[i] in Live(routers, disconnecting)
    decreases |routers|
  {
    if |routers| > 0 {
      var n := |routers| - 1;
      LiveMembers(routers[..n], disconnecting);
      assert routers == routers[..n] + [routers[n]];
    }
  }

  /** One step of the router scan at position `n`: the router there joins the kept routers
      unless it disconnects, and its update is the next tick. */
  lemma ScanStep(routers: seq<PlayingRouter>, n: nat, disconnecting: set<PlayingRouter>)
    requires n < |routers|
    ensures Live(routers[..n + 1], disconnecting) ==
            Live(routers[..n], disconnecting) +
            (if routers[n] in disconnecting then [] else [routers[n]])
    ensures RouterTicks(routers[..n + 1]) == RouterTicks(routers[..n]) + [RouterUpdate(routers[n])]
  {
    assert routers[..n + 1][..n] == routers[..n];
  }

  /** The current roster during the scan: the routers kept so far, then the router at `n`,
      then those after it. */
  lemma ScanSplit(routers: seq<PlayingRouter>, n: nat, kept: seq<PlayingRouter>)
    requires n < |routers|
    ensures (kept + routers[n..])[|kept|] == routers[n]
    ensures kept + routers[n..] == kept + [routers[n]] + routers[n + 1..]
  {
    assert routers[n..] == [routers[n]] + routers[n + 1..];
  }

  /** A disconnecting router at `n`, removed by indexOf from the routers kept before it
      followed by the routers from `n` on, is found at its own place: the kept routers never
      include a disconnecting one, even when the roster lists it more than once. */
  lemma ScanRemove(routers: seq<PlayingRouter>, n: nat, disconnecting: set<PlayingRouter>)
    requires n < |routers| && routers[n] in disconnecting
    ensures RemoveByIndexOf(Live(routers[..n], disconnecting) + routers[n..], routers[n]) ==
            Live(routers[..n], disconnecting) + routers[n + 1..]
  {
    var x, kept := routers[n], Live(routers[..n], disconnecting);
    assert x !in kept by {
      LiveMembers(routers[..n], disconnecting);
    }
    var s := kept + routers[n..];
    assert s[|kept|] == x && s[..|kept|] == kept;
    IndexOfFirstOccurrence(s, |kept|);
    assert s[|kept| + 1..] == routers[n + 1..];
  }

  /** Every close of the dormancy scan is a 1003 close of a roster connection idle for at
      least the maximum dormancy, and every such connection is closed. */
  lemma {:induction false} DormancyClosesExactly(cs: seq<Connection>, now: int, maxDormancy: int)
    ensures forall e :: e in DormancyCloses(cs, now, maxDormancy) ==>
              e.CloseSocket? && e.code == DormancyCloseCode && e.reason == DormancyCloseReason &&
              e.connection in cs && now - e.connection.lastActivityTime >= maxDormancy
    ensures forall c :: c in cs && now - c.lastActivityTime >= maxDormancy ==>
              CloseSocket(c, DormancyCloseCode, DormancyCloseReason) in DormancyCloses(cs, now, maxDormancy)
    decreases |cs|
  {
    if |cs| > 0 {
      var n := |cs| - 1;
      DormancyClosesExactly(cs[..n], now, maxDormancy);
      assert cs == cs[..n] + [cs[n]];
    }
  }

  lemma DormancyStep(cs: seq<Connection>, k: nat, now: int, maxDormancy: int)
    requires k < |cs|
    ensures DormancyCloses(cs[..k + 1], now, maxDormancy) ==
            DormancyCloses(cs[..k], now, maxDormancy) +
            (if now - cs[k].lastActivityTime < maxDormancy then []
             else [CloseSocket(cs[k], DormancyCloseCode, DormancyCloseReason)])
  {
    assert cs[..k + 1][..k] == cs[..k];
  }

  /** No element occurs twice: the last one is not among the others, which are distinct. */
  ghost predicate Distinct<T>(s: seq<T>)
    decreases |s|
  {
    |s| == 0 || (Distinct(s[..|s| - 1]) && s[|s| - 1] !in s[..|s| - 1])
  }

  /** In a sequence without repetitions, no element occurs before its own position, so
      `indexOf` of the element at `n` is `n`. */
  lemma {:induction false} DistinctNotBefore<T>(s: seq<T>, n: nat)
    requires Distinct(s) && n < |s|
    ensures s[n] !in s[..n]
    ensures IndexOf(s, s[n]) == n
    decreases |s|
  {
    var m := |s| - 1;
    if n < m {
      DistinctNotBefore(s[..m], n);
      assert s[..m][..n] == s[..n];
    }
    IndexOfFirstOccurrence(s, n);
  }

  /** Filtering a roster without repetitions leaves one without repetitions, so the next
      tick may scan it again. */
  lemma {:induction false} LiveDistinct(routers: seq<PlayingRouter>, disconnecting: set<PlayingRouter>)
    requires Distinct(routers)
    ensures Distinct(Live(routers, disconnecting))
    decreases |routers|
  {
    if |routers| > 0 {
      var n := |routers| - 1;
      var init := routers[..n];
      var last := routers[n];
      LiveDistinct(init, disconnecting);
      var kept := Live(init, disconnecting);
      if last !in disconnecting {
        LiveMembers(init, disconnecting);
        DistinctNotBefore(routers, n);
        assert last !in kept;
        var r := kept + [last];
        assert Live(routers, disconnecting) == r;
        assert r[..|r| - 1] == kept && r[|r| - 1] == last;
      } else {
        assert Live(routers, disconnecting) == kept;
      }
    }
  }

  /** A single router disconnecting during the scan leaves every other router, in order. */
  lemma {:induction false} LiveDropsOne(routers: seq<PlayingRouter>, k: nat)
    requires Distinct(routers) && k < |routers|
    ensures Live(routers, {routers[k]}) == routers[..k] + routers[k + 1..]
    decreases |routers|
  {
    var n := |routers| - 1;
    var init := routers[..n];
    if k == n {
      LiveKeepsAll(init, {routers[k]});
    } else {
      assert init[k] == routers[k] && Distinct(init);
      LiveDropsOne(init, k);
      assert init[..k] == routers[..k];
      assert init[k + 1..] + [routers[n]] == routers[k + 1..];
    }
  }

  /** Filtering by a set none of whose members occur keeps the roster as it is. */
  lemma {:induction false} LiveKeepsAll(routers: seq<PlayingRouter>, disconnecting: set<PlayingRouter>)
    requires forall x :: x in routers ==> x !in disconnecting
    ensures Live(routers, disconnecting) == routers
    decreases |routers|
  {
    if |routers| > 0 {
      var n := |routers| - 1;
      LiveKeepsAll(routers[..n], disconnecting);
      assert routers[..n] + [routers[n]] == routers;
    }
  }

  class Listener {
    const settings: Settings
    var listenerSocket: Option<SocketServer>
    var allPlayingRouters: seq<PlayingRouter>
    var connections: seq<Connection>
    /** Effects on collaborators, oldest first. */
    ghost var events: seq<Event>

    constructor (settings: Settings)
      ensures this.settings == settings && listenerSocket == None
      ensures allPlayingRouters == [] && connections == [] && events == []
    {
      this.settings := settings;
      listenerSocket := None;
      allPlayingRouters := [];
      connections := [];
      events := [];
    }

    /** Binds the accept socket unless it is already bound; reports whether it did. */
    method Open() returns (bound: bool)
      modifies this`listenerSocket
      ensures bound <==> old(listenerSocket).None?
      ensures listenerSocket == if bound then Some(SocketServer(settings.listeningPort))
                                else old(listenerSocket)
    {
      if listenerSocket.Some? { return false; }
      listenerSocket := Some(SocketServer(settings.listeningPort));
      return true;
    }

    /** Releases the accept socket unless there is none; reports whether it did. */
    method Close() returns (released: bool)
      modifies this`listenerSocket
      ensures released <==> old(listenerSocket).Some?
      ensures listenerSocket == None
    {
      if listenerSocket.None? { return false; }
      listenerSocket := None;
      return true;
    }

    /** The admission decision for a client announcing `origin`, scanning the allow-list
        tokens until the first exact match. */
    method VerifyClient(origin: string) returns (v: Verdict)
      ensures v == Verify(settings.listenerAcceptedOrigins, origin, |connections|,
                          settings.listenerMaxConnections)
    {
      if settings.listenerAcceptedOrigins.Some? {
        var split := Split(settings.listenerAcceptedOrigins.value, ' ');
        var matches := false;
        var i := 0;
        while i < |split|
          invariant 0 <= i <= |split|
          invariant !matches && origin !in split[..i]
        {
          if origin == split[i] {
            matches := true;
            break;
          }
          i := i + 1;
        }
        assert matches || split[..i] == split;
        if !matches {
          return Rejected(ForbiddenCode, ForbiddenReason);
        }
      }
      if |connections| > settings.listenerMaxConnections {
        return Rejected(UnavailableCode, UnavailableReason);
      }
      return Accepted;
    }

    method AddPlayingRouter(router: PlayingRouter)
      modifies this`allPlayingRouters
      ensures allPlayingRouters == old(allPlayingRouters) + [router]
    {
      allPlayingRouters := allPlayingRouters + [router];
    }

    /** Removes `router` with indexOf and splice: its first occurrence when present, the last
        router of the roster when absent. */
    method RemovePlayingRouter(router: PlayingRouter)
      modifies this`allPlayingRouters
      ensures allPlayingRouters == RemoveByIndexOf(old(allPlayingRouters), router)
    {
      allPlayingRouters := SpliceOne(allPlayingRouters, IndexOf(allPlayingRouters, router));
    }

    /** Accepts a new client: creates its player, appends it to the roster, adds it to the
        global chat, then routes it (see `Routing`). */
    method OnConnection(lastActivityTime: int) returns (c: Connection)
      modifies this`connections, this`events
      ensures fresh(c) && c.lastActivityTime == lastActivityTime
      ensures connections == old(connections) + [c]
      ensures events == old(events) + [CreatePlayer(c), ChatAdd(c)] +
                        Routing(c, settings.matchmakerNeedsQueuing)
    {
      c := new Connection(lastActivityTime);
      events := events + [CreatePlayer(c)];
      connections := connections + [c];
      events := events + [ChatAdd(c)];
      if settings.matchmakerNeedsQueuing {
        events := events + [DirectMessage(c, QueuingNotice)];
        events := events + [DirectMessage(c, SpawnHint)];
      } else {
        events := events + [Enqueue(c)];
      }
    }

    /** A closed client leaves the global chat and the roster (indexOf and splice again). */
    method OnDisconnection(connection: Connection, code: int, reason: string)
      modifies this`connections, this`events
      ensures events == old(events) + [ChatRemove(connection)]
      ensures connections == RemoveByIndexOf(old(connections), connection)
    {
      events := events + [ChatRemove(connection)];
      connections := SpliceOne(connections, IndexOf(connections, connection));
    }

    /** One tick at time `now`: the router scan, then the dormancy scan. */
    method Update(now: int, disconnecting: set<PlayingRouter>)
      modifies this`allPlayingRouters, this`events
      ensures Distinct(old(allPlayingRouters)) ==> Distinct(allPlayingRouters)
      ensures allPlayingRouters == Live(old(allPlayingRouters), disconnecting)
      ensures connections == old(connections)
      ensures events == old(events) + RouterTicks(old(allPlayingRouters)) +
                        DormancyCloses(connections, now, settings.listenerMaxClientDormancy)
    {
      UpdateRouters(disconnecting);
      CloseDormant(now);
    }

    /** `router.update()` as the scan relies on it: the update is recorded, and a router of
        `disconnecting` removes itself from the roster; `isDisconnected` is the flag the
        router shows afterwards. */
    method TickRouter(router: PlayingRouter, disconnecting: set<PlayingRouter>)
      returns (isDisconnected: bool)
      modifies this`allPlayingRouters, this`events
      ensures events == old(events) + [RouterUpdate(router)]
      ensures isDisconnected == (router in disconnecting)
      ensures allPlayingRouters == if router in disconnecting
                                   then RemoveByIndexOf(old(allPlayingRouters), router)
                                   else old(allPlayingRouters)
    {
      events := events + [RouterUpdate(router)];
      isDisconnected := router in disconnecting;
      if isDisconnected {
        RemovePlayingRouter(router);
      }
    }

    /** The first loop of `update`. Every router is updated once, in roster order; a router of
        `disconnecting` removes itself from the roster during its own update, and the scan
        then steps back one place so that the router sliding into the vacated slot is neither
        skipped nor updated twice. */
    method UpdateRouters(disconnecting: set<PlayingRouter>)
      modifies this`allPlayingRouters, this`events
      ensures Distinct(old(allPlayingRouters)) ==> Distinct(allPlayingRouters)
      ensures allPlayingRouters == Live(old(allPlayingRouters), disconnecting)
      ensures events == old(events) + RouterTicks(old(allPlayingRouters))
    {
      ghost var routers := allPlayingRouters;
      ghost var n := 0;
      ghost var kept: seq<PlayingRouter> := [];
      var i: int, l: int := 0, |allPlayingRouters|;
      while i < l
        invariant 0 <= n <= |routers|
        invariant kept == Live(routers[..n], disconnecting)
        invariant allPlayingRouters == kept + routers[n..]
        invariant i == |kept| && l == |kept| + |routers| - n
        invariant events == old(events) + RouterTicks(routers[..n])
        decreases l - i
      {
        var router := allPlayingRouters[i];
        ScanSplit(routers, n, kept);
        ScanStep(routers, n, disconnecting);
        if router in disconnecting {
          ScanRemove(routers, n, disconnecting);
        }
        AppendAssoc(old(events), RouterTicks(routers[..n]), [RouterUpdate(router)]);
        var isDisconnected := TickRouter(router, disconnecting);
        if router !in disconnecting {
          kept := kept + [router];
        }
        if isDisconnected {
          i, l := i - 1, l - 1;
        }
        i := i + 1;
        n := n + 1;
      }
      assert routers[..n] == routers;
      assert allPlayingRouters == Live(routers, disconnecting);
      if Distinct(routers) {
        LiveDistinct(routers, disconnecting);
      }
    }

    /** The second loop of `update`: with the clock read as `now`, every connection idle for
        at least the maximum dormancy is closed with code 1003, in roster order; closing does
        not itself change the roster. */
    method CloseDormant(now: int)
      modifies this`events
      ensures events == old(events) + DormancyCloses(connections, now, settings.listenerMaxClientDormancy)
    {
      var i, l := 0, |connections|;
      while i < l
        invariant 0 <= i <= l == |connections|
        invariant events == old(events) +
                            DormancyCloses(connections[..i], now, settings.listenerMaxClientDormancy)
      {
        var connection := connections[i];
        DormancyStep(connections, i, now, settings.listenerMaxClientDormancy);
        if now - connection.lastActivityTime < settings.listenerMaxClientDormancy {
          i := i + 1;
          continue;
        }
        events := events + [CloseSocket(connection, DormancyCloseCode, DormancyCloseReason)];
        i := i + 1;
      }
      assert connections[..i] == connections;
    }
  }

  /** Opening twice in a row binds once; closing twice in a row releases once. */
  method OpenCloseTwice(settings: Settings) returns (o1: bool, o2: bool, c1: bool, c2: bool)
    ensures o1 && !o2 && c1 && !c2
  {
    var listener := new Listener(settings);
    o1 := listener.Open();
    o2 := listener.Open();
    c1 := listener.Close();
    c2 := listener.Close();
  }

  /** The scan's specification on `[a, b, a]` with `a` disconnecting. */
  lemma RepeatedRouterScan(a: PlayingRouter, b: PlayingRouter)
    requires a != b
    ensures Live([a, b, a], {a}) == [b]
    ensures RouterTicks([a, b, a]) == [RouterUpdate(a), RouterUpdate(b), RouterUpdate(a)]
  {
    var routers := [a, b, a];
    assert routers[..2] == [a, b] && [a, b][..1] == [a] && [a][..0] == [];
    assert Live([a], {a}) == [];
    assert Live([a, b], {a}) == [b];
    assert RouterTicks([a]) == [RouterUpdate(a)];
    assert RouterTicks([a, b]) == [RouterUpdate(a), RouterUpdate(b)];
  }

  /** A roster listing one router twice, `[a, b, a]`, with `a` disconnecting: the tick updates
      all three listings in order and leaves only `b`. */
  method TickRepeatedRouter(settings: Settings) returns (a: PlayingRouter, b: PlayingRouter,
                                                         roster: seq<PlayingRouter>,
                                                         ghost ticks: seq<Event>)
    ensures a != b
    ensures roster == [b]
    ensures ticks == [RouterUpdate(a), RouterUpdate(b), RouterUpdate(a)]
  {
    var listener := new Listener(settings);
    a := new PlayingRouter();
    b := new PlayingRouter();
    listener.AddPlayingRouter(a);
    listener.AddPlayingRouter(b);
    listener.AddPlayingRouter(a);
    assert listener.allPlayingRouters == [a, b, a];
    listener.UpdateRouters({a});
    RepeatedRouterScan(a, b);
    roster := listener.allPlayingRouters;
    ticks := listener.events;
  }
}
