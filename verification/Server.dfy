/** The connections of a server: what is done on one of them does not depend on the others. */
module Server {
  import opened Response
  import opened RequestParser
  import RequestLaws
  import opened HeaderPieces

  /** An accepted connection, or a handle that was shut down because accepting it failed. */
  datatype Client<S> = Serving(conn: Conn<S>) | Refused(calls: seq<Call>)

  /** What happens on the listening socket (with the initial state of the closures of the new
      connection) and on the connections. */
  datatype Happening<S> =
    | Accept(id: nat, accepted: bool, user: S)
    | Callback(id: nat, event: Event)

  function ClientStep<S>(app: App<S>, client: Client<S>, e: Event): Client<S> {
    match client
    case Serving(conn) => Serving(EventStep(app, conn, e))
    case Refused(_) => client
  }

  /** `stopped`: an exception has left a callback. It passes through libuv and ends the loop, so that no
      callback of any connection follows. */
  datatype World<S> = World(clients: map<nat, Client<S>>, stopped: bool)

  predicate Throws<S>(client: Client<S>, e: Event) {
    client.Serving? && Raises(client.conn, e)
  }

  function Happen<S>(app: App<S>, w: World<S>, h: Happening<S>): World<S> {
    if w.stopped then w
    else
      match h
      case Accept(id, accepted, user) =>
        w.(clients := w.clients[id := if accepted then Serving(Fresh(user)) else Refused([UvShutdown])])
      case Callback(id, e) =>
        if id in w.clients then
          World(w.clients[id := ClientStep(app, w.clients[id], e)], Throws(w.clients[id], e))
        else w
  }

  function RunAll<S>(app: App<S>, w: World<S>, hs: seq<Happening<S>>): World<S>
    decreases |hs|
  {
    if hs == [] then w else RunAll(app, Happen(app, w, hs[0]), hs[1..])
  }

  function Start<S>(): World<S> { World(map[], false) }

  /** The happenings up to the one that ends the loop. */
  function Served<S>(app: App<S>, w: World<S>, hs: seq<Happening<S>>): seq<Happening<S>>
    decreases |hs|
  {
    if hs == [] || w.stopped then [] else [hs[0]] + Served(app, Happen(app, w, hs[0]), hs[1..])
  }

  /** The happenings of one connection. */
  function Own<S>(id: nat, hs: seq<Happening<S>>): seq<Happening<S>> {
    if hs == [] then []
    else if hs[0].id == id then [hs[0]] + Own(id, hs[1..])
    else Own(id, hs[1..])
  }

  ghost predicate SameAt<S>(id: nat, a: map<nat, Client<S>>, b: map<nat, Client<S>>) {
    (id in a <==> id in b) && (id in a ==> a[id] == b[id])
  }

  // ---------------------------------------------------------------- isolation

  lemma {:induction false} StoppedStays<S>(app: App<S>, w: World<S>, hs: seq<Happening<S>>)
    requires w.stopped
    ensures RunAll(app, w, hs) == w
    decreases |hs|
  {
    if hs != [] {
      StoppedStays(app, w, hs[1..]);
    }
  }

  /** The happenings of others change nothing at a connection; its own change it alike in two worlds. */
  lemma {:induction false} HappenAt<S>(app: App<S>, id: nat, h: Happening<S>, a: World<S>, b: World<S>)
    requires !a.stopped && !b.stopped && SameAt(id, a.clients, b.clients)
    ensures h.id != id ==> SameAt(id, Happen(app, a, h).clients, b.clients)
    ensures h.id == id ==> SameAt(id, Happen(app, a, h).clients, Happen(app, b, h).clients)
                           && Happen(app, a, h).stopped == Happen(app, b, h).stopped
  {
  }

  /** Under any interleaving, a connection ends as it would have if only its own happenings had
      taken place, among other connections or none. The happenings are those up to the end of the
      loop, all of them unless an exception ends it. */
  lemma {:induction false} Isolation<S>(app: App<S>, id: nat, hs: seq<Happening<S>>, a: World<S>, b: World<S>)
    requires !a.stopped && !b.stopped && SameAt(id, a.clients, b.clients)
    ensures var served := Served(app, a, hs);
            && served <= hs && (!RunAll(app, a, hs).stopped ==> served == hs)
            && SameAt(id, RunAll(app, a, hs).clients, RunAll(app, b, Own(id, served)).clients)
    decreases |hs|
  {
    hide Happen, SameAt;
    if hs != [] {
      var h, rest := hs[0], hs[1..];
      var a' := Happen(app, a, h);
      var served := Served(app, a', rest);
      assert Served(app, a, hs)[1..] == served;
      HappenAt(app, id, h, a, b);
      var b' := if h.id == id then Happen(app, b, h) else b;
      assert RunAll(app, b, Own(id, [h] + served)) == RunAll(app, b', Own(id, served)) by {
        assert ([h] + served)[1..] == served;
        assert h.id == id ==> Own(id, [h] + served)[1..] == Own(id, served);
      }
      if a'.stopped {
        StoppedStays(app, a', rest);
      } else {
        Isolation(app, id, rest, a', b');
      }
    }
  }

  lemma {:induction false} StopsWithAny<S>(app: App<S>, id: nat, hs: seq<Happening<S>>, a: World<S>, b: World<S>)
    requires !a.stopped && !b.stopped && SameAt(id, a.clients, b.clients)
    requires RunAll(app, b, Own(id, hs)).stopped
    ensures RunAll(app, a, hs).stopped
    decreases |hs|
  {
    hide Happen, SameAt;
    if hs != [] {
      var h, rest := hs[0], hs[1..];
      var a' := Happen(app, a, h);
      HappenAt(app, id, h, a, b);
      if a'.stopped {
        StoppedStays(app, a', rest);
      } else if h.id == id {
        assert Own(id, hs)[1..] == Own(id, rest);
        StopsWithAny(app, id, rest, a', Happen(app, b, h));
      } else {
        StopsWithAny(app, id, rest, a', b);
      }
    }
  }

  lemma {:induction false} OwnTwice<S>(id: nat, hs: seq<Happening<S>>)
    ensures Own(id, Own(id, hs)) == Own(id, hs)
  {
    if hs != [] {
      OwnTwice(id, hs[1..]);
      if hs[0].id == id {
        assert Own(id, hs)[1..] == Own(id, hs[1..]);
      }
    }
  }

  /** Which connection ends the loop. */
  lemma {:induction false} Stopper<S>(app: App<S>, hs: seq<Happening<S>>, w: World<S>) returns (id: nat)
    requires !w.stopped && RunAll(app, w, hs).stopped
    ensures RunAll(app, w, Own(id, hs)).stopped
    decreases |hs|
  {
    hide Happen, SameAt;
    var h, rest := hs[0], hs[1..];
    var w' := Happen(app, w, h);
    if w'.stopped {
      id := h.id;
      StoppedStays(app, w', Own(id, rest));
    } else {
      id := Stopper(app, rest, w');
    }
    if h.id == id {
      assert Own(id, hs)[1..] == Own(id, rest);
    } else {
      SameAtItself(id, w.clients);
      HappenAt(app, id, h, w, w);
      OwnTwice(id, rest);
      SameAtBack(id, w'.clients, w.clients);
      StopsWithAny(app, id, Own(id, rest), w, w');
    }
  }

  lemma {:induction false} SameAtItself<S>(id: nat, a: map<nat, Client<S>>)
    ensures SameAt(id, a, a)
  {
  }

  lemma {:induction false} SameAtBack<S>(id: nat, a: map<nat, Client<S>>, b: map<nat, Client<S>>)
    requires SameAt(id, a, b)
    ensures SameAt(id, b, a)
  {
  }

  /** The loop of all connections ends by an exception exactly when some connection alone would end it. */
  lemma {:induction false} StopsIff<S>(app: App<S>, hs: seq<Happening<S>>)
    ensures RunAll(app, Start(), hs).stopped <==> exists id :: RunAll(app, Start(), Own(id, hs)).stopped
  {
    if RunAll(app, Start(), hs).stopped {
      var id := Stopper(app, hs, Start());
      assert RunAll(app, Start(), Own(id, hs)).stopped;
    }
    if id: nat :| RunAll(app, Start(), Own(id, hs)).stopped {
      SameAtItself<S>(id, map[]);
      StopsWithAny(app, id, hs, Start(), Start());
    }
  }

  /** Two interleavings of the same happenings of every connection both end the loop or both do not, and
      then they end in the same state. */
  lemma {:induction false} OrderDoesNotMatter<S>(app: App<S>, hs: seq<Happening<S>>, hs': seq<Happening<S>>)
    requires forall id :: Own(id, hs) == Own(id, hs')
    ensures RunAll(app, Start(), hs).stopped == RunAll(app, Start(), hs').stopped
    ensures !RunAll(app, Start(), hs).stopped ==> RunAll(app, Start(), hs) == RunAll(app, Start(), hs')
  {
    hide RunAll, Served, Happen;
    var r, r' := RunAll(app, Start(), hs), RunAll(app, Start(), hs');
    StopsIff(app, hs);
    StopsIff(app, hs');
    if id: nat :| RunAll(app, Start(), Own(id, hs)).stopped {
      assert Own(id, hs) == Own(id, hs');
    }
    if id: nat :| RunAll(app, Start(), Own(id, hs')).stopped {
      assert Own(id, hs) == Own(id, hs');
    }
    if !r.stopped {
      assert forall id: nat :: SameAt(id, r.clients, r'.clients) by {
        forall id: nat ensures SameAt(id, r.clients, r'.clients) {
          SameAtItself<S>(id, map[]);
          Isolation(app, id, hs, Start(), Start());
          Isolation(app, id, hs', Start(), Start());
          assert Own(id, hs) == Own(id, hs');
        }
      }
      SameEverywhere(r.clients, r'.clients);
    }
  }

  lemma {:induction false} SameEverywhere<S>(a: map<nat, Client<S>>, b: map<nat, Client<S>>)
    requires forall id: nat :: SameAt(id, a, b)
    ensures a == b
  {
    assert forall id: nat :: SameAt(id, a, b) ==> (id in a <==> id in b) && (id in a ==> a[id] == b[id]);
  }

  // ---------------------------------------------------------------- when the loop ends

  /** The parser callbacks of one connection. */
  function EventsAt<S>(id: nat, hs: seq<Happening<S>>): seq<Event> {
    if hs == [] then []
    else if hs[0].Callback? && hs[0].id == id then [hs[0].event] + EventsAt(id, hs[1..])
    else EventsAt(id, hs[1..])
  }

  predicate Accepts<S>(id: nat, h: Happening<S>) { h.Accept? && h.id == id }

  /** The connection was made by happening `j`, or refused then. */
  predicate Since<S>(id: nat, hs: seq<Happening<S>>, j: int) {
    0 <= j < |hs| && Accepts(id, hs[j]) && forall l :: j < l < |hs| ==> !Accepts(id, hs[l])
  }

  /** Happening `k` completes the headers of a connection accepted at `j`, when the field callbacks of that
      connection so far are not as many as its value callbacks. */
  predicate EndsLoop<S>(hs: seq<Happening<S>>, j: int, k: int) {
    && 0 <= k < |hs| && hs[k].Callback? && hs[k].event == HeadersComplete
    && Since(hs[k].id, hs[..k], j) && hs[j].accepted
    && Surplus(EventsAt(hs[k].id, hs[j + 1..k])) != 0
  }

  lemma {:induction false} RunSnoc<S>(app: App<S>, w: World<S>, hs: seq<Happening<S>>, h: Happening<S>)
    ensures RunAll(app, w, hs + [h]) == Happen(app, RunAll(app, w, hs), h)
    decreases |hs|
  {
    hide Happen;
    if hs == [] {
      assert [h][1..] == [];
    } else {
      assert (hs + [h])[1..] == hs[1..] + [h];
      RunSnoc(app, Happen(app, w, hs[0]), hs[1..], h);
    }
  }

  lemma {:induction false} EventsSnoc<S>(id: nat, hs: seq<Happening<S>>, h: Happening<S>)
    ensures EventsAt(id, hs + [h]) == EventsAt(id, hs) + if h.Callback? && h.id == id then [h.event] else []
  {
    if hs == [] {
      assert [h][1..] == [];
    } else {
      assert (hs + [h])[1..] == hs[1..] + [h];
      EventsSnoc(id, hs[1..], h);
    }
  }

  /** The client of a connection made at `j` holds as many fields more than values as were received. */
  ghost predicate Balanced<S>(client: Client<S>, id: nat, hs: seq<Happening<S>>, j: int) {
    && 0 <= j < |hs| && hs[j].Accept?
    && if hs[j].accepted then
         client.Serving? && |client.conn.fields| - |client.conn.values| == Surplus(EventsAt(id, hs[j + 1..]))
       else client.Refused?
  }

  /** What is known of a connection in a loop that has not ended. */
  ghost predicate Tracked<S>(w: World<S>, id: nat, hs: seq<Happening<S>>) {
    if id in w.clients then exists j :: Since(id, hs, j) && Balanced(w.clients[id], id, hs, j)
    else forall l :: 0 <= l < |hs| ==> !Accepts(id, hs[l])
  }

  lemma {:induction false} SinceUnique<S>(id: nat, hs: seq<Happening<S>>, i: int, j: int)
    requires Since(id, hs, i) && Since(id, hs, j)
    ensures i == j
  {
  }

  lemma {:induction false} SinceLater<S>(id: nat, hs: seq<Happening<S>>, h: Happening<S>, j: int)
    requires Since(id, hs, j) && !Accepts(id, h)
    ensures Since(id, hs + [h], j)
  {
  }

  lemma {:induction false} StepCounts<S>(app: App<S>, c: Conn<S>, e: Event)
    ensures var c' := EventStep(app, c, e);
            |c'.fields| - |c'.values| == |c.fields| - |c.values| + Surplus([e])
  {
    RequestLaws.StepDelivers(app, c, e);
    DueRaises(RequestLaws.AccOf(c), e);
  }

  lemma {:induction false} BalancedLater<S>(app: App<S>, client: Client<S>, id: nat, hs: seq<Happening<S>>,
                                            h: Happening<S>, j: int)
    requires Since(id, hs, j) && Balanced(client, id, hs, j) && !Accepts(id, h)
    ensures var client' := if h.Callback? && h.id == id then ClientStep(app, client, h.event) else client;
            Balanced(client', id, hs + [h], j)
  {
    hide EventStep;
    assert (hs + [h])[j + 1..] == hs[j + 1..] + [h];
    EventsSnoc(id, hs[j + 1..], h);
    var events := EventsAt(id, hs[j + 1..]);
    assert (hs + [h])[j] == hs[j] && events + [] == events;
    if h.Callback? && h.id == id && client.Serving? {
      StepCounts(app, client.conn, h.event);
      SurplusAppend(events, [h.event]);
    }
  }

  lemma {:induction false} TrackedLater<S>(app: App<S>, w: World<S>, id: nat, hs: seq<Happening<S>>, h: Happening<S>)
    requires !w.stopped && Tracked(w, id, hs)
    ensures Tracked(Happen(app, w, h), id, hs + [h])
  {
    hide Balanced, ClientStep, Throws;
    var w' := Happen(app, w, h);
    if Accepts(id, h) {
      NewlyTracked(id, hs, h);
      assert Since(id, hs + [h], |hs|);
    } else if id in w.clients {
      var j :| Since(id, hs, j) && Balanced(w.clients[id], id, hs, j);
      SinceLater(id, hs, h, j);
      BalancedLater(app, w.clients[id], id, hs, h, j);
      assert Balanced(w'.clients[id], id, hs + [h], j);
    }
  }

  lemma {:induction false} NewlyTracked<S>(id: nat, hs: seq<Happening<S>>, h: Happening<S>)
    requires Accepts(id, h)
    ensures var client := if h.accepted then Serving(Fresh(h.user)) else Refused([UvShutdown]);
            Balanced(client, id, hs + [h], |hs|)
  {
    assert (hs + [h])[|hs| + 1..] == [];
  }

  lemma {:induction false} AllTracked<S>(app: App<S>, hs: seq<Happening<S>>, id: nat)
    requires !RunAll(app, Start(), hs).stopped
    ensures Tracked(RunAll(app, Start(), hs), id, hs)
    decreases |hs|
  {
    if hs != [] {
      hide Tracked;
      var init, h := hs[..|hs| - 1], hs[|hs| - 1];
      assert hs == init + [h];
      RunSnoc(app, Start(), init, h);
      AllTracked(app, init, id);
      TrackedLater(app, RunAll(app, Start(), init), id, init, h);
    }
  }

  lemma {:induction false} ThrowsNow<S>(client: Client<S>, hs: seq<Happening<S>>, h: Happening<S>, j: int)
    requires h.Callback? && Since(h.id, hs, j) && Balanced(client, h.id, hs, j)
    ensures EndsLoop(hs + [h], j, |hs|) <==> Throws(client, h.event)
  {
    hide Surplus, EventsAt;
    var all := hs + [h];
    assert all[..|hs|] == hs && all[j + 1..|hs|] == hs[j + 1..] && all[j] == hs[j];
  }

  lemma {:induction false} SinceOfEnding<S>(hs: seq<Happening<S>>, h: Happening<S>, j: int)
    requires EndsLoop(hs + [h], j, |hs|)
    ensures h.Callback? && Since(h.id, hs, j)
  {
    assert (hs + [h])[..|hs|] == hs;
  }

  /** The next happening ends the loop exactly when it completes unbalanced headers. */
  lemma {:induction false} EndsNow<S>(app: App<S>, hs: seq<Happening<S>>, h: Happening<S>)
    requires !RunAll(app, Start(), hs).stopped
    ensures Happen(app, RunAll(app, Start(), hs), h).stopped <==> exists j :: EndsLoop(hs + [h], j, |hs|)
  {
    hide RunAll, EndsLoop, ClientStep, Throws, Since, Balanced;
    var w := RunAll(app, Start(), hs);
    AllTracked(app, hs, h.id);
    if h.Callback? && h.id in w.clients {
      var j :| Since(h.id, hs, j) && Balanced(w.clients[h.id], h.id, hs, j);
      ThrowsNow(w.clients[h.id], hs, h, j);
    }
    if i :| EndsLoop(hs + [h], i, |hs|) {
      SinceOfEnding(hs, h, i);
      AcceptedBefore(h.id, hs, i);
      if h.id in w.clients {
        var j :| Since(h.id, hs, j) && Balanced(w.clients[h.id], h.id, hs, j);
        SinceUnique(h.id, hs, i, j);
        ThrowsNow(w.clients[h.id], hs, h, j);
      }
    }
  }

  lemma {:induction false} AcceptedBefore<S>(id: nat, hs: seq<Happening<S>>, j: int)
    requires Since(id, hs, j)
    ensures 0 <= j < |hs| && Accepts(id, hs[j])
  {
  }

  lemma {:induction false} EndedBefore<S>(hs: seq<Happening<S>>, h: Happening<S>, j: int, k: int)
    requires k < |hs|
    ensures EndsLoop(hs + [h], j, k) <==> EndsLoop(hs, j, k)
  {
    if 0 <= k {
      assert (hs + [h])[..k] == hs[..k];
      if 0 <= j < k {
        assert (hs + [h])[j + 1..k] == hs[j + 1..k];
      }
    }
  }

  /** Whatever user code does: an exception ends the loop exactly when some accepted connection completes
      its headers with field callbacks that are not as many as its value callbacks. */
  lemma {:induction false} LoopEndsIff<S>(app: App<S>, hs: seq<Happening<S>>)
    ensures RunAll(app, Start(), hs).stopped <==> exists j, k :: EndsLoop(hs, j, k)
    decreases |hs|
  {
    if hs != [] {
      hide EndsLoop, Happen;
      var init, h := hs[..|hs| - 1], hs[|hs| - 1];
      var w := RunAll(app, Start(), init);
      assert hs == init + [h];
      RunSnoc(app, Start(), init, h);
      LoopEndsIff(app, init);
      if j, k :| EndsLoop(init, j, k) {
        InTraceAt(init, j, k);
        EndedBefore(init, h, j, k);
      }
      if w.stopped {
        StoppedStays(app, w, [h]);
      } else {
        EndsNow(app, init, h);
        if j, k :| EndsLoop(hs, j, k) {
          InTraceAt(hs, j, k);
          if k < |init| {
            EndedBefore(init, h, j, k);
          }
        }
      }
    }
  }

  lemma {:induction false} InTraceAt<S>(hs: seq<Happening<S>>, j: int, k: int)
    requires EndsLoop(hs, j, k)
    ensures 0 <= k < |hs|
  {
  }

  // ---------------------------------------------------------------- what a connection computes

  /** The loop has not ended before the last of the happenings. */
  ghost predicate RunsThrough<S>(app: App<S>, hs: seq<Happening<S>>) {
    Served(app, Start(), hs) == hs
  }

  lemma {:induction false} ServedSnoc<S>(app: App<S>, w: World<S>, hs: seq<Happening<S>>, h: Happening<S>)
    requires Served(app, w, hs + [h]) == hs + [h]
    ensures Served(app, w, hs) == hs && !RunAll(app, w, hs).stopped
    decreases |hs|
  {
    hide Happen;
    if hs != [] {
      var all := hs + [h];
      assert all[0] == hs[0] && all[1..] == hs[1..] + [h];
      var w' := Happen(app, w, hs[0]);
      assert Served(app, w, all) == [hs[0]] + Served(app, w', all[1..]);
      assert Served(app, w', all[1..]) == Served(app, w, all)[1..] == all[1..];
      ServedSnoc(app, w', hs[1..], h);
    }
  }

  lemma {:induction false} ServedAll<S>(app: App<S>, w: World<S>, hs: seq<Happening<S>>)
    ensures RunAll(app, w, Served(app, w, hs)) == RunAll(app, w, hs)
    ensures Served(app, w, Served(app, w, hs)) == Served(app, w, hs)
    decreases |hs|
  {
    hide Happen;
    if w.stopped {
      StoppedStays(app, w, hs);
    } else if hs != [] {
      ServedAll(app, Happen(app, w, hs[0]), hs[1..]);
      assert Served(app, w, hs)[1..] == Served(app, Happen(app, w, hs[0]), hs[1..]);
    }
  }

  /** What a connection made at `j` is: the parser callbacks since then, run on a new response with new
      references; or a handle that was shut down. */
  function ClientOf<S>(app: App<S>, id: nat, hs: seq<Happening<S>>, j: int): Client<S>
    requires 0 <= j < |hs| && hs[j].Accept?
  {
    if hs[j].accepted then Serving(Run(app, Fresh(hs[j].user), EventsAt(id, hs[j + 1..])))
    else Refused([UvShutdown])
  }

  lemma {:induction false} ClientLater<S>(app: App<S>, id: nat, hs: seq<Happening<S>>, h: Happening<S>, j: int)
    requires Since(id, hs, j) && !Accepts(id, h)
    ensures var client := ClientOf(app, id, hs, j);
            ClientOf(app, id, hs + [h], j) ==
            if h.Callback? && h.id == id then ClientStep(app, client, h.event) else client
  {
    hide EventStep;
    assert (hs + [h])[j] == hs[j] && (hs + [h])[j + 1..] == hs[j + 1..] + [h];
    EventsSnoc(id, hs[j + 1..], h);
    var events := EventsAt(id, hs[j + 1..]);
    assert events + [] == events;
    if h.Callback? && h.id == id && hs[j].accepted {
      var c := Run(app, Fresh(hs[j].user), events);
      RunAppend(app, Fresh(hs[j].user), events, [h.event]);
      RunCons(app, c, h.event, []);
      assert [h.event] + [] == [h.event];
    }
  }

  lemma {:induction false} ClientNow<S>(app: App<S>, id: nat, hs: seq<Happening<S>>, h: Happening<S>)
    requires Accepts(id, h)
    ensures Since(id, hs + [h], |hs|)
    ensures ClientOf(app, id, hs + [h], |hs|) ==
            if h.accepted then Serving(Fresh(h.user)) else Refused([UvShutdown])
  {
    assert (hs + [h])[|hs| + 1..] == [];
  }

  /** The world holds the connection as it should be, or does not know it. */
  ghost predicate Right<S>(app: App<S>, w: World<S>, id: nat, hs: seq<Happening<S>>) {
    && (id !in w.clients ==> forall l :: 0 <= l < |hs| ==> !Accepts(id, hs[l]))
    && (id in w.clients ==> exists j :: Since(id, hs, j) && w.clients[id] == ClientOf(app, id, hs, j))
  }

  lemma {:induction false} RightLater<S>(app: App<S>, w: World<S>, id: nat, hs: seq<Happening<S>>, h: Happening<S>)
    requires !w.stopped && Right(app, w, id, hs)
    ensures Right(app, Happen(app, w, h), id, hs + [h])
  {
    hide ClientOf, ClientStep, Throws;
    var w' := Happen(app, w, h);
    if Accepts(id, h) {
      ClientNow(app, id, hs, h);
      assert w'.clients[id] == ClientOf(app, id, hs + [h], |hs|);
    } else if id in w.clients {
      var j :| Since(id, hs, j) && w.clients[id] == ClientOf(app, id, hs, j);
      SinceLater(id, hs, h, j);
      ClientLater(app, id, hs, h, j);
      assert w'.clients[id] == ClientOf(app, id, hs + [h], j);
    }
  }

  lemma {:induction false} AllRight<S>(app: App<S>, hs: seq<Happening<S>>, id: nat)
    requires RunsThrough(app, hs)
    ensures Right(app, RunAll(app, Start(), hs), id, hs)
    decreases |hs|
  {
    if hs != [] {
      hide Right, Happen, Served;
      var init, h := hs[..|hs| - 1], hs[|hs| - 1];
      assert hs == init + [h];
      ServedSnoc(app, Start(), init, h);
      RunSnoc(app, Start(), init, h);
      AllRight(app, init, id);
      RightLater(app, RunAll(app, Start(), init), id, init, h);
    }
  }

  /** For every run of the server, of the happenings up to the end of the loop: a connection accepted at `j`,
      and not made again since, is in the state in which its parser callbacks leave a new connection; one
      refused then is a handle on which a shutdown was called; other numbers name no connection. */
  lemma {:induction false} ConnectionRuns<S>(app: App<S>, hs: seq<Happening<S>>, id: nat)
    ensures var clients, served := RunAll(app, Start(), hs).clients, Served(app, Start(), hs);
            && (id in clients <==> exists j :: Since(id, served, j))
            && forall j :: Since(id, served, j) ==>
                 clients[id] == if served[j].accepted
                                then Serving(Run(app, Fresh(served[j].user), EventsAt(id, served[j + 1..])))
                                else Refused([UvShutdown])
  {
    hide Served, Happen, RunAll, ClientStep, EventsAt;
    var served := Served(app, Start(), hs);
    var clients := RunAll(app, Start(), hs).clients;
    ServedAll(app, Start(), hs);
    AllRight(app, served, id);
    forall j | Since(id, served, j) ensures id in clients && clients[id] == ClientOf(app, id, served, j) {
      AcceptedBefore(id, served, j);
      var i :| Since(id, served, i) && clients[id] == ClientOf(app, id, served, i);
      SinceUnique(id, served, i, j);
    }
  }

  /** The objects the callback of `createServer` makes for a client. */
  datatype Slot<S> = Live(callbacks: Callbacks<S>) | Shut(calls: seq<Call>)

  class HttpServer<S> {
    const app: App<S>
    var slots: map<nat, Slot<S>>
    var stopped: bool

    ghost function Objects(): set<object>
      reads `slots
    {
      (set id | id in slots && slots[id].Live? :: slots[id].callbacks as object) +
      (set id | id in slots && slots[id].Live? :: slots[id].callbacks.res as object)
    }

    /** No two connections share their references or their response. */
    ghost predicate Valid()
      reads `slots
    {
      && this !in Objects()
      && (forall id :: id in slots && slots[id].Live? ==> slots[id].callbacks.app == app)
      && forall i, j :: i in slots && j in slots && slots[i].Live? && slots[j].Live? && i != j ==>
           slots[i].callbacks != slots[j].callbacks && slots[i].callbacks.res != slots[j].callbacks.res
    }

    ghost function At(id: nat): Client<S>
      requires id in slots
      reads `slots, Objects()
    {
      match slots[id]
      case Live(callbacks) => Serving(callbacks.State())
      case Shut(calls) => Refused(calls)
    }

    ghost function Clients(): map<nat, Client<S>>
      reads `slots, Objects()
    {
      map id | id in slots :: At(id)
    }

    ghost function State(): World<S>
      reads `slots, `stopped, Objects()
    {
      World(Clients(), stopped)
    }

    constructor (app: App<S>)
      ensures this.app == app && Valid() && State() == Start()
    {
      this.app, slots, stopped := app, map[], false;
    }

    /** The response, the references and the callbacks of a new connection. */
    method NewCallbacks(user: S) returns (callbacks: Callbacks<S>)
      ensures fresh(callbacks) && fresh(callbacks.res)
      ensures callbacks.app == app && callbacks.State() == Fresh(user)
    {
      var res := new ResT();
      callbacks := new Callbacks(app, user, res);
    }

    method Serve(id: nat, user: S)
      requires Valid() && !stopped
      modifies this
      ensures Valid()
      ensures State() == Happen(app, old(State()), Accept(id, true, user))
    {
      hide EventStep, ClientStep, Throws, Fresh;
      ghost var before := Clients();
      var callbacks := NewCallbacks(user);
      slots := slots[id := Live(callbacks)];
      assert forall j :: j in slots && j != id ==> At(j) == before[j];
      assert Clients() == before[id := Serving(Fresh(user))];
    }

    method Refuse(id: nat, user: S)
      requires Valid() && !stopped
      modifies this
      ensures Valid()
      ensures State() == Happen(app, old(State()), Accept(id, false, user))
    {
      slots := slots[id := Shut([UvShutdown])];
    }

    /** The callback given to `uv_listen`; `r` is the result of `uv_accept`. */
    method OnConnection(id: nat, r: int, user: S)
      requires Valid()
      modifies this
      ensures Valid()
      ensures State() == Happen(app, old(State()), Accept(id, r == 0, user))
    {
      if stopped {
        return;
      }
      if r == 0 {
        Serve(id, user);
      } else {
        Refuse(id, user);
      }
    }

    /** One callback on the objects of one connection; those of the others keep their state. */
    method HandleAt(id: nat, e: Event) returns (ok: bool)
      requires Valid() && id in slots && slots[id].Live?
      modifies Objects()
      ensures slots == old(slots) && ok == !Throws(old(At(id)), e)
      ensures Clients() == old(Clients())[id := ClientStep(app, old(At(id)), e)]
    {
      hide EventStep, Raises;
      ghost var before := Clients();
      ok := slots[id].callbacks.Handle(e);
      assert At(id) == ClientStep(app, before[id], e);
      assert forall j :: j in slots && j != id ==> At(j) == before[j];
    }

    /** A callback of the parser of one connection. */
    method OnEvent(id: nat, e: Event)
      requires Valid()
      modifies `stopped, Objects()
      ensures Valid() && slots == old(slots)
      ensures State() == Happen(app, old(State()), Callback(id, e))
    {
      if !stopped && id in slots && slots[id].Live? {
        assert this !in Objects();
        hide ClientStep, Throws, Valid, Objects, At;
        var ok := HandleAt(id, e);
        stopped := !ok;
      }
    }
  }
}
