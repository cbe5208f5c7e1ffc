/** The HTTP layer on top of the bindings: what has been sent to a client in every run of the two. */
module EndToEnd {
  import opened Text
  import HttpDate
  import HeaderBlock
  import Response
  import RequestParser
  import RequestLaws
  import WriterLaws
  import Chunked
  import Echo
  import opened Uv
  import opened UvLaws
  import opened UvRuns
  import opened UvHistory

  /** A step of the whole server, seen from one connection: a callback of its parser, inside `read_cb`, with
      all that the bindings are asked for while user code runs, or any other step. */
  datatype Happening =
    | Parser(event: RequestParser.Event, during: seq<Event>)
    | Other(step: Event)

  function LoopEvents(hs: seq<Happening>): seq<Event> {
    if hs == [] then []
    else (match hs[0] case Parser(_, during) => during case Other(step) => [step]) + LoopEvents(hs[1..])
  }

  function ParserEvents(hs: seq<Happening>): seq<RequestParser.Event> {
    if hs == [] then []
    else (match hs[0] case Parser(event, _) => [event] case Other(_) => []) + ParserEvents(hs[1..])
  }

  /** The calls on one transport handle. */
  function CallsOn(h: Ptr, events: seq<Event>): seq<Response.Call> {
    if events == [] then []
    else
      (match events[0]
       case UvWrite(g, bytes, _, _, _) => if g == h then [Response.UvWrite(bytes)] else []
       case UvShutdown(g, _, _) => if g == h then [Response.UvShutdown] else []
       case _ => []) + CallsOn(h, events[1..])
  }

  /** While a parser callback runs, the calls on the handle of the connection are those of its response,
      and nothing else calls on that handle. */
  predicate Wired<S>(app: RequestParser.App<S>, c: RequestParser.Conn<S>, h: Ptr, hs: seq<Happening>)
    decreases |hs|
  {
    hs == [] ||
    match hs[0]
    case Parser(event, during) =>
      var c' := RequestParser.EventStep(app, c, event);
      c'.calls == c.calls + CallsOn(h, during) && Wired(app, c', h, hs[1..])
    case Other(step) => CallsOn(h, [step]) == [] && Wired(app, c, h, hs[1..])
  }

  lemma {:induction false} CallsOnAppend(h: Ptr, a: seq<Event>, b: seq<Event>)
    ensures CallsOn(h, a + b) == CallsOn(h, a) + CallsOn(h, b)
  {
    if a == [] {
      assert a + b == b;
    } else {
      assert (a + b)[1..] == a[1..] + b;
      CallsOnAppend(h, a[1..], b);
    }
  }

  /** The calls on the handle are all those of the HTTP layer, in order. */
  lemma {:induction false} CallsMade<S>(app: RequestParser.App<S>, c: RequestParser.Conn<S>, h: Ptr, hs: seq<Happening>)
    requires Wired(app, c, h, hs)
    ensures RequestParser.Run(app, c, ParserEvents(hs)).calls == c.calls + CallsOn(h, LoopEvents(hs))
    decreases |hs|
  {
    hide RequestParser.EventStep;
    if hs == [] {
      assert c.calls + [] == c.calls;
    } else {
      var rest := LoopEvents(hs[1..]);
      match hs[0] {
        case Parser(event, during) =>
          var c' := RequestParser.EventStep(app, c, event);
          CallsMade(app, c', h, hs[1..]);
          CallsOnAppend(h, during, rest);
          RequestParser.RunCons(app, c, event, ParserEvents(hs[1..]));
          Associative(c.calls, CallsOn(h, during), CallsOn(h, rest));
        case Other(step) =>
          CallsMade(app, c, h, hs[1..]);
          CallsOnAppend(h, [step], rest);
          assert [] + CallsOn(h, rest) == CallsOn(h, rest);
          assert [] + ParserEvents(hs[1..]) == ParserEvents(hs[1..]);
      }
    }
  }

  // ---------------------------------------------------------------- the handle is alive

  predicate IsCall(e: Event) {
    e.TcpInit? || e.RequestOn? || e.UvWrite? || e.UvShutdown? || e.TcpConnect?
  }

  /** What is assumed of a call made in `read_cb` of the stream `h`. Of the calls on `h` itself only that
      the allocator gives new blocks and that libuv takes one shutdown: not that the handle is live. */
  ghost predicate Granted(s: State, h: Ptr, e: Event) {
    match e
    case UvWrite(g, _, buf, req, _) =>
      if g == h then buf !in s.heap && req !in s.heap && buf != req else Enabled(s, e)
    case UvShutdown(g, req, r) =>
      if g == h then req !in s.heap && (r == 0 ==> forall o :: o in s.owed && o.ShutdownDone? ==> o.stream != h)
      else Enabled(s, e)
    case _ => IsCall(e) && Enabled(s, e)
  }

  ghost predicate AllGranted(s: State, h: Ptr, during: seq<Event>)
    decreases |during|
  {
    during == [] ||
    (Granted(s, h, during[0]) && (Enabled(s, during[0]) ==> AllGranted(Step(s, during[0]), h, during[1..])))
  }

  /** The steps of the loop are what its environment guarantees, and parser callbacks run in `read_cb`. */
  ghost predicate Lawful(s: State, h: Ptr, hs: seq<Happening>)
    decreases |hs|
  {
    hs == [] ||
    match hs[0]
    case Parser(_, during) =>
      && Reading(s, h) && AllGranted(s, h, during)
      && (Allowed(s, during) ==> Lawful(Run(s, during), h, hs[1..]))
    case Other(step) => Enabled(s, step) && Lawful(Step(s, step), h, hs[1..])
  }

  /** While its data are being read, a stream is open. */
  lemma {:induction false} ReadingIsOpen(s: State, h: Ptr)
    requires Inv(s) && Reading(s, h)
    ensures h in s.open && IsHandle(s, h)
  {
    var buf :| ReadDone(h, buf, true) in s.owed;
    assert WellFormed(s.heap, s.open, ReadDone(h, buf, true));
  }

  lemma {:induction false} CallKeepsReading(s: State, h: Ptr, e: Event)
    requires Enabled(s, e) && IsCall(e) && Reading(s, h)
    ensures Reading(Step(s, e), h)
  {
    var buf :| ReadDone(h, buf, true) in s.owed;
    assert s.owed <= Step(s, e).owed;
  }

  /** User code that is called with data of a stream finds the handle live at each of its calls. */
  lemma {:induction false} CallsAllowed(s: State, h: Ptr, during: seq<Event>)
    requires Inv(s) && Reading(s, h) && AllGranted(s, h, during)
    ensures Allowed(s, during) && Inv(Run(s, during))
    ensures h in Run(s, during).open && IsHandle(Run(s, during), h)
    decreases |during|
  {
    hide Inv, Step, Reading;
    ReadingIsOpen(s, h);
    if during != [] {
      var e := during[0];
      assert Enabled(s, e) && IsCall(e);
      StepKeepsInv(s, e);
      CallKeepsReading(s, h, e);
      CallsAllowed(Step(s, e), h, during[1..]);
    }
  }

  lemma {:induction false} AllowedAppend(s: State, a: seq<Event>, b: seq<Event>)
    requires Allowed(s, a) && Allowed(Run(s, a), b)
    ensures Allowed(s, a + b)
    decreases |a|
  {
    hide Step, Enabled;
    if a == [] {
      assert a + b == b;
    } else {
      assert (a + b)[1..] == a[1..] + b;
      AllowedAppend(Step(s, a[0]), a[1..], b);
    }
  }

  lemma {:induction false} LawfulAllowed(s: State, h: Ptr, hs: seq<Happening>)
    requires Inv(s) && Lawful(s, h, hs)
    ensures Allowed(s, LoopEvents(hs))
    decreases |hs|
  {
    hide Inv, Step, Enabled, Reading, AllGranted;
    if hs != [] {
      match hs[0] {
        case Parser(_, during) =>
          CallsAllowed(s, h, during);
          LawfulAllowed(Run(s, during), h, hs[1..]);
          AllowedAppend(s, during, LoopEvents(hs[1..]));
        case Other(step) =>
          StepKeepsInv(s, step);
          LawfulAllowed(Step(s, step), h, hs[1..]);
          assert ([step] + LoopEvents(hs[1..]))[1..] == LoopEvents(hs[1..]);
      }
    }
  }

  // ---------------------------------------------------------------- accepted writes

  /** The strings given to `uv_write`. */
  function Writes(calls: seq<Response.Call>): seq<string> {
    if calls == [] then []
    else if calls[0].UvWrite? then [calls[0].bytes] + Writes(calls[1..])
    else Writes(calls[1..])
  }

  lemma {:induction false} WritesAppend(a: seq<Response.Call>, b: seq<Response.Call>)
    ensures Writes(a + b) == Writes(a) + Writes(b)
  {
    if a == [] {
      assert a + b == b;
    } else {
      assert (a + b)[1..] == a[1..] + b;
      WritesAppend(a[1..], b);
    }
  }

  lemma {:induction false} WireOfWrites(calls: seq<Response.Call>)
    ensures Concat(Writes(calls)) == Response.Wire(calls)
  {
    if calls != [] {
      WireOfWrites(calls[1..]);
      if calls[0].UvWrite? {
        assert Writes(calls)[1..] == Writes(calls[1..]);
      }
    }
  }

  /** The string that an event submits to a stream and libuv accepts, if there is one. */
  function Taken(h: Ptr, e: Event): seq<string> {
    match e
    case UvWrite(g, bytes, _, _, r) => if g == h && r == 0 then [bytes] else []
    case _ => []
  }

  function Submitted(h: Ptr, events: seq<Event>): seq<string> {
    if events == [] then [] else Taken(h, events[0]) + Submitted(h, events[1..])
  }

  predicate RefusesWrite(h: Ptr, e: Event) { e.UvWrite? && e.h == h && e.r != 0 }

  /** Once libuv has refused a write on the stream, it takes none. A stream that is shut down is like that. */
  predicate RefusalsLast(h: Ptr, events: seq<Event>) {
    events == [] ||
    if RefusesWrite(h, events[0]) then Submitted(h, events[1..]) == [] else RefusalsLast(h, events[1..])
  }

  /** libuv refuses none of the first `n` writes on the stream. */
  predicate TakesFirst(h: Ptr, events: seq<Event>, n: nat) {
    n == 0 || events == [] ||
    (!RefusesWrite(h, events[0]) &&
     TakesFirst(h, events[1..], if events[0].UvWrite? && events[0].h == h then n - 1 else n))
  }

  /** `a` is `b` with some elements left out. */
  predicate Subsequence(a: seq<string>, b: seq<string>)
    decreases |b|
  {
    a == [] || (b != [] && ((a[0] == b[0] && Subsequence(a[1..], b[1..])) || Subsequence(a, b[1..])))
  }

  lemma {:induction false} PrefixOfSubsequence(a: seq<string>, b: seq<string>, c: seq<string>)
    requires a <= b && Subsequence(b, c)
    ensures Subsequence(a, c)
    decreases |c|
  {
    if a != [] {
      if b[0] == c[0] && Subsequence(b[1..], c[1..]) {
        PrefixOfSubsequence(a[1..], b[1..], c[1..]);
      } else {
        PrefixOfSubsequence(a, b, c[1..]);
      }
    }
  }

  /** The first call on the handle and the rest. */
  lemma {:induction false} FirstCall(h: Ptr, events: seq<Event>)
    requires events != []
    ensures var e, rest := events[0], Writes(CallsOn(h, events[1..]));
            Writes(CallsOn(h, events)) == if e.UvWrite? && e.h == h then [e.bytes] + rest else rest
  {
    var e, rest := events[0], events[1..];
    assert events == [e] + rest;
    CallsOnAppend(h, [e], rest);
    WritesAppend(CallsOn(h, [e]), CallsOn(h, rest));
    OneCall(h, e);
  }

  lemma {:induction false} FirstSubmitted(h: Ptr, events: seq<Event>)
    requires events != []
    ensures var e, rest := events[0], Submitted(h, events[1..]);
            Submitted(h, events) == if e.UvWrite? && e.h == h && e.r == 0 then [e.bytes] + rest else rest
  {
    assert [] + Submitted(h, events[1..]) == Submitted(h, events[1..]);
  }

  lemma {:induction false} SubsequenceCons(a: seq<string>, b: seq<string>, x: string)
    requires Subsequence(a, b)
    ensures Subsequence(a, [x] + b) && Subsequence([x] + a, [x] + b)
  {
    assert ([x] + b)[1..] == b && ([x] + a)[1..] == a;
  }

  /** What libuv accepts is what is written but for the strings it refuses. */
  lemma {:induction false} AcceptedOfWritten(h: Ptr, events: seq<Event>)
    ensures Subsequence(Submitted(h, events), Writes(CallsOn(h, events)))
  {
    hide Subsequence, Taken;
    if events == [] {
      NothingAccepted();
    } else {
      var e, taken, written := events[0], Submitted(h, events[1..]), Writes(CallsOn(h, events[1..]));
      FirstCall(h, events);
      FirstSubmitted(h, events);
      AcceptedOfWritten(h, events[1..]);
      if e.UvWrite? {
        SubsequenceCons(taken, written, e.bytes);
      }
    }
  }

  lemma {:induction false} NothingAccepted()
    ensures Subsequence([], [])
  {
  }

  lemma {:induction false} AcceptedFirst(h: Ptr, events: seq<Event>)
    requires RefusalsLast(h, events)
    ensures Submitted(h, events) <= Writes(CallsOn(h, events))
  {
    if events != [] {
      FirstCall(h, events);
      FirstSubmitted(h, events);
      hide CallsOn, Submitted;
      if !RefusesWrite(h, events[0]) {
        AcceptedFirst(h, events[1..]);
      }
    }
  }

  lemma {:induction false} AllAccepted(h: Ptr, events: seq<Event>)
    requires forall e :: e in events ==> !RefusesWrite(h, e)
    ensures Submitted(h, events) == Writes(CallsOn(h, events))
  {
    if events != [] {
      assert events[0] in events && forall e :: e in events[1..] ==> e in events;
      FirstCall(h, events);
      FirstSubmitted(h, events);
      AllAccepted(h, events[1..]);
    }
  }

  lemma {:induction false} FirstAccepted(h: Ptr, events: seq<Event>, n: nat)
    requires TakesFirst(h, events, n) && |Submitted(h, events)| >= n
    ensures |Writes(CallsOn(h, events))| >= n && Submitted(h, events)[..n] == Writes(CallsOn(h, events))[..n]
  {
    if events != [] && n > 0 {
      var e, rest := events[0], events[1..];
      FirstCall(h, events);
      if e.UvWrite? && e.h == h {
        assert Submitted(h, events) == [e.bytes] + Submitted(h, rest);
        FirstAccepted(h, rest, n - 1);
        var s, w := Submitted(h, rest), Writes(CallsOn(h, rest));
        assert ([e.bytes] + s)[..n] == [e.bytes] + s[..n - 1] && ([e.bytes] + w)[..n] == [e.bytes] + w[..n - 1];
      } else {
        assert Submitted(h, events) == [] + Submitted(h, rest);
        FirstAccepted(h, rest, n);
      }
    }
  }

  lemma {:induction false} OneCall(h: Ptr, e: Event)
    ensures Writes(CallsOn(h, [e])) == if e.UvWrite? && e.h == h then [e.bytes] else []
  {
    assert CallsOn(h, [e][1..]) == [];
    if e.UvWrite? && e.h == h {
      assert CallsOn(h, [e]) == [Response.UvWrite(e.bytes)];
      assert Writes([Response.UvWrite(e.bytes)][1..]) == [];
    } else if e.UvShutdown? && e.h == h {
      assert CallsOn(h, [e]) == [Response.UvShutdown];
      assert Writes([Response.UvShutdown][1..]) == [];
    }
  }

  /** The stream is not one of a client. */
  ghost predicate NotConnecting(s: State, h: Ptr) {
    forall o :: o in s.owed && o.ConnectDone? ==> o.stream != h
  }

  lemma {:induction false} StepAccepts(s: State, e: Event, h: Ptr)
    requires Enabled(s, e) && NotConnecting(s, h)
    ensures On(h, Step(s, e).accepted) == On(h, s.accepted) + Taken(h, e)
  {
    hide On, Without;
    match e {
      case UvWrite(g, bytes, _, _, _) => OnSnoc(h, s.accepted, (g, bytes));
      case ConnectCb(i, _, _) =>
        assert s.owed[i].stream != h;
        OnSnoc(h, s.accepted, (s.owed[i].stream, BytesOf(s.heap, s.owed[i].buf)));
      case _ =>
    }
  }

  lemma {:induction false} StepConnects(s: State, e: Event, h: Ptr)
    requires Enabled(s, e) && NotConnecting(s, h) && !(e.TcpConnect? && e.h == h)
    ensures NotConnecting(Step(s, e), h)
  {
    forall o | o in Step(s, e).owed && o.ConnectDone? ensures o.stream != h {
      assert o in s.owed || (e.TcpConnect? && o.stream == e.h);
    }
  }

  lemma {:induction false} RunAccepts(s: State, events: seq<Event>, h: Ptr)
    requires Allowed(s, events) && NotConnecting(s, h)
    requires forall e :: e in events && e.TcpConnect? ==> e.h != h
    ensures On(h, Run(s, events).accepted) == On(h, s.accepted) + Submitted(h, events)
    decreases |events|
  {
    hide Step, On, Taken, NotConnecting;
    if events == [] {
      assert On(h, s.accepted) + [] == On(h, s.accepted);
    } else {
      assert events == [events[0]] + events[1..];
      StepAccepts(s, events[0], h);
      StepConnects(s, events[0], h);
      RunAccepts(Step(s, events[0]), events[1..], h);
      Associative(On(h, s.accepted), Taken(h, events[0]), Submitted(h, events[1..]));
    }
  }

  lemma {:induction false} StepSent(s: State, e: Event, h: Ptr)
    requires Enabled(s, e)
    ensures On(h, s.sent) <= On(h, Step(s, e).sent)
  {
    hide On, Without;
    match e {
      case WriteCb(i) => OnSnoc(h, s.sent, (s.owed[i].stream, BytesOf(s.heap, s.owed[i].buf)));
      case _ =>
    }
  }

  lemma {:induction false} SentGrows(s: State, events: seq<Event>, h: Ptr)
    requires Allowed(s, events)
    ensures On(h, s.sent) <= On(h, Run(s, events).sent)
    decreases |events|
  {
    hide Step, On;
    if events != [] {
      StepSent(s, events[0], h);
      SentGrows(Step(s, events[0]), events[1..], h);
    }
  }

  /** Nothing is owed on a block that is not allocated, whatever it was before. */
  lemma {:induction false} NothingOwed(s: State, h: Ptr)
    requires Inv(s) && h !in s.heap
    ensures NotConnecting(s, h) && NoWriteOwed(s, h)
  {
    hide Count, Owners;
    forall o | o in s.owed ensures o.stream != h {
      assert WellFormed(s.heap, s.open, o);
    }
  }

  /** What is sent on a stream of the server in one life of its block, at every moment. */
  lemma {:induction false} SentOfSubmitted(s: State, events: seq<Event>, h: Ptr)
    requires Inv(s) && InOrder(s, h) && h !in s.heap && Allowed(s, events)
    requires forall e :: e in events && e.TcpConnect? ==> e.h != h
    ensures var s' := Run(s, events);
            && On(h, s.sent) <= On(h, s'.sent)
            && var mine := On(h, s'.sent)[|On(h, s.sent)|..];
               && mine <= Submitted(h, events)
               && (NoWriteOwed(s', h) ==> mine == Submitted(h, events))
               && (CloseDone(h) in s'.owed ==> NoWriteOwed(s', h))
  {
    hide Run, Allowed, On, Inv, NotConnecting, NoWriteOwed, Pending, Submitted;
    var s' := Run(s, events);
    NothingOwed(s, h);
    NothingPending(s, h);
    RunKeepsInv(s, events);
    RunInOrder(s, events, h);
    RunAccepts(s, events, h);
    SentGrows(s, events, h);
    Rest(On(h, s.sent), On(h, s'.sent), Pending(s'.heap, s'.owed, h), Submitted(h, events));
    if CloseDone(h) in s'.owed {
      NothingPendingAtClose(s', h);
    }
    if NoWriteOwed(s', h) {
      NothingPending(s', h);
    }
  }

  lemma {:induction false} NothingPending(s: State, h: Ptr)
    requires NoWriteOwed(s, h)
    ensures Pending(s.heap, s.owed, h) == []
  {
    NonePending(s.heap, s.owed, h);
  }

  lemma {:induction false} Rest(before: seq<string>, now: seq<string>, pending: seq<string>, taken: seq<string>)
    requires before <= now && now + pending == before + [] + taken
    ensures now[|before|..] + pending == taken
  {
    assert now == before + now[|before|..];
    assert (now + pending)[|before|..] == now[|before|..] + pending;
    assert (before + [] + taken)[|before|..] == taken;
  }

  lemma {:induction false} ConcatPrefix(a: seq<string>, b: seq<string>)
    requires a <= b
    ensures Concat(a) <= Concat(b)
  {
    assert b == a + b[|a|..];
    ConcatAppend(a, b[|a|..]);
  }

  // ---------------------------------------------------------------- delivery

  /** A run of the loop, and after it the steps in the life of one server connection, whose handle is a
      block that is free then and may have been the handle of earlier connections. */
  ghost predicate ServerRun<S>(app: RequestParser.App<S>, user: S, before: seq<Event>, h: Ptr, hs: seq<Happening>) {
    && Allowed(INITIAL, before) && h !in Run(INITIAL, before).heap
    && Wired(app, RequestParser.Fresh(user), h, hs) && Lawful(Run(INITIAL, before), h, hs)
    && forall e :: e in LoopEvents(hs) && e.TcpConnect? ==> e.h != h
  }

  lemma {:induction false} Reached(before: seq<Event>, h: Ptr)
    requires Allowed(INITIAL, before)
    ensures Inv(Run(INITIAL, before)) && InOrder(Run(INITIAL, before), h)
  {
    InitialInv();
    Conservation(before);
    RunInOrder(INITIAL, before, h);
  }

  /** At every moment in the life of every connection of every run, and for every user code: the handle has
      been live at every call; the strings sent on the stream in this life are among those the HTTP layer
      wrote, whole and in order; their bytes are a prefix of its output unless libuv took a write after it
      had refused one; and they are all of it when none was refused and no write is owed, as when the
      stream is being closed. */
  lemma {:induction false} WireDelivered<S>(app: RequestParser.App<S>, user: S, before: seq<Event>, h: Ptr,
                                            hs: seq<Happening>)
    requires ServerRun(app, user, before, h, hs)
    ensures Allowed(Run(INITIAL, before), LoopEvents(hs))
    ensures var s, events := Run(INITIAL, before), LoopEvents(hs);
            var s' := Run(s, events);
            var calls := RequestParser.Run(app, RequestParser.Fresh(user), ParserEvents(hs)).calls;
            && On(h, s.sent) <= On(h, s'.sent)
            && var mine := On(h, s'.sent)[|On(h, s.sent)|..];
               && Subsequence(mine, Writes(calls))
               && (RefusalsLast(h, events) ==> Concat(mine) <= Response.Wire(calls))
               && (NoWriteOwed(s', h) && (forall e :: e in events ==> !RefusesWrite(h, e)) ==>
                   Concat(mine) == Response.Wire(calls))
               && (CloseDone(h) in s'.owed ==> NoWriteOwed(s', h))
  {
    hide Run, Allowed, Wired, RefusesWrite, NoWriteOwed, RefusalsLast, On, Subsequence, Lawful, Inv, InOrder, Submitted,
         CallsOn, Writes, LoopEvents, ParserEvents, RequestParser.Run, Response.Wire, Concat;
    var s, events, c := Run(INITIAL, before), LoopEvents(hs), RequestParser.Fresh(user);
    var calls := CallsOn(h, events);
    Reached(before, h);
    LawfulAllowed(s, h, hs);
    CallsMade(app, c, h, hs);
    assert [] + calls == calls;
    SentOfSubmitted(s, events, h);
    AcceptedOfWritten(h, events);
    WireOfWrites(calls);
    var mine := On(h, Run(s, events).sent)[|On(h, s.sent)|..];
    PrefixOfSubsequence(mine, Submitted(h, events), Writes(calls));
    if RefusalsLast(h, events) {
      AcceptedFirst(h, events);
      ConcatPrefix(mine, Writes(calls));
    }
    if forall e :: e in events ==> !RefusesWrite(h, e) {
      AllAccepted(h, events);
    }
  }

  lemma {:induction false} WritesCounted(res: Response.Res, ops: seq<Response.Op>)
    ensures |Writes(Response.ApplyAll(res, ops).1)| == |WriterLaws.Messages(ops)|
    decreases |ops|
  {
    if ops != [] {
      var (r, c) := Response.Apply(res, ops[0]);
      WritesCounted(r, ops[1..]);
      WritesAppend(c, Response.ApplyAll(r, ops[1..]).1);
      OneWrite(res, ops[0]);
    }
  }

  lemma {:induction false} OneWrite(res: Response.Res, op: Response.Op)
    ensures |Writes(Response.Apply(res, op).1)| == if WriterLaws.Sends(op) then 1 else 0
  {
    hide Response.Payload;
    var calls := Response.Apply(res, op).1;
    if calls != [] {
      assert calls[1..] == [] || calls[1..] == [Response.UvShutdown];
      assert Writes([Response.UvShutdown]) == Writes([Response.UvShutdown][1..]);
    }
  }

  lemma {:induction false} CallsGrow<S>(app: RequestParser.App<S>, c: RequestParser.Conn<S>,
                                        events: seq<RequestParser.Event>)
    ensures c.calls <= RequestParser.Run(app, c, events).calls
    decreases |events|
  {
    if events != [] {
      CallsGrow(app, RequestParser.EventStep(app, c, events[0]), events[1..]);
    }
  }

  lemma {:induction false} WritesPrefix(a: seq<Response.Call>, b: seq<Response.Call>)
    requires a <= b
    ensures Writes(a) <= Writes(b)
  {
    assert b == a + b[|a|..];
    WritesAppend(a, b[|a|..]);
  }

  lemma {:induction false} SamePart(first: seq<string>, written: seq<string>, taken: seq<string>, sent: seq<string>)
    requires first <= written && sent <= taken && |first| <= |sent|
    requires taken[..|first|] == written[..|first|]
    ensures first <= sent
  {
    assert first == written[..|first|] && sent[..|first|] == taken[..|first|];
  }

  /** When libuv has taken the writes of the first parser callbacks and as many have been completed, these
      are the first bytes sent. */
  lemma {:induction false} FirstWrites<S>(app: RequestParser.App<S>, user: S, before: seq<Event>, h: Ptr,
                                          hs: seq<Happening>,
                                          first: seq<RequestParser.Event>, more: seq<RequestParser.Event>)
    requires ServerRun(app, user, before, h, hs) && ParserEvents(hs) == first + more
    requires var n := |Writes(RequestParser.Run(app, RequestParser.Fresh(user), first).calls)|;
             var s, events := Run(INITIAL, before), LoopEvents(hs);
             && TakesFirst(h, events, n)
             && (Allowed(s, events) ==> |On(h, Run(s, events).sent)| >= |On(h, s.sent)| + n)
    ensures Allowed(Run(INITIAL, before), LoopEvents(hs))
    ensures var calls := RequestParser.Run(app, RequestParser.Fresh(user), first).calls;
            var s := Run(INITIAL, before);
            && On(h, s.sent) <= On(h, Run(s, LoopEvents(hs)).sent)
            && Response.Wire(calls) <= Concat(On(h, Run(s, LoopEvents(hs)).sent)[|On(h, s.sent)|..])
  {
    hide Run, Allowed, Wired, On, Lawful, Inv, InOrder, TakesFirst, Writes, CallsOn, Submitted, Concat, LoopEvents,
         ParserEvents, RequestParser.Run, Response.Wire, NoWriteOwed;
    var s, events, c := Run(INITIAL, before), LoopEvents(hs), RequestParser.Fresh(user);
    var c1 := RequestParser.Run(app, c, first);
    Reached(before, h);
    LawfulAllowed(s, h, hs);
    RequestParser.RunAppend(app, c, first, more);
    CallsGrow(app, c1, more);
    CallsMade(app, c, h, hs);
    var all := CallsOn(h, events);
    assert [] + all == all;
    SentOfSubmitted(s, events, h);
    var mine := On(h, Run(s, events).sent)[|On(h, s.sent)|..];
    FirstAccepted(h, events, |Writes(c1.calls)|);
    WritesPrefix(c1.calls, all);
    SamePart(Writes(c1.calls), Writes(all), Submitted(h, events), mine);
    ConcatPrefix(Writes(c1.calls), mine);
    WireOfWrites(c1.calls);
  }

  /** The echo server over the loop: in the life of every connection whose first message has arrived,
      whatever came before and after it, once the writes of its reply have been taken and completed, the
      bytes sent are a header block and a body which, received in any segments, decodes to the fragments
      of the request. */
  lemma {:induction false} EchoDelivered(clock: int -> HttpDate.Gmtime, m: RequestLaws.Message,
                                         before: seq<Event>, h: Ptr, hs: seq<Happening>,
                                         more: seq<RequestParser.Event>, segments: seq<string>)
    requires "" !in m.body
    requires ServerRun(Echo.EchoApp(clock), 0, before, h, hs)
    requires ParserEvents(hs) == RequestLaws.MessageEvents(m) + more
    requires TakesFirst(h, LoopEvents(hs), |m.body| + 1)
    requires var s, events := Run(INITIAL, before), LoopEvents(hs);
             Allowed(s, events) ==> |On(h, Run(s, events).sent)| > |On(h, s.sent)| + |m.body|
    ensures Allowed(Run(INITIAL, before), LoopEvents(hs))
    ensures var s := Run(INITIAL, before);
            && On(h, s.sent) <= On(h, Run(s, LoopEvents(hs)).sent)
            && var head := HeaderBlock.ParseHead(Concat(On(h, Run(s, LoopEvents(hs)).sent)[|On(h, s.sent)|..]));
               && head.Some? && head.value.0.status == 200
               && (Concat(segments) == head.value.1 ==>
                   var seen := Chunked.Observe(Chunked.FeedAll(Chunked.START, segments));
                   seen.Complete? && seen.chunks == m.body)
  {
    hide Run, Allowed, On, Echo.EchoApp, RequestParser.Run, Wired, Lawful, TakesFirst, WriterLaws.Messages, LoopEvents,
         RequestLaws.MessageEvents, ParserEvents, HeaderBlock.ParseHead, Chunked.Encode, Chunked.FeedAll,
         Chunked.Observe, HeaderBlock.FieldMap, Response.Wire, Response.ApplyAll, Concat, Writes;
    var app, s := Echo.EchoApp(clock), Run(INITIAL, before);
    var first := RequestParser.Run(app, RequestParser.Fresh(0), RequestLaws.MessageEvents(m));
    Echo.FirstReply(clock, m, "");
    WritesCounted(Response.INITIAL, first.ops);
    FirstWrites(app, 0, before, h, hs, RequestLaws.MessageEvents(m), more);
    var sent := Concat(On(h, Run(s, LoopEvents(hs)).sent)[|On(h, s.sent)|..]);
    var tail := sent[|Response.Wire(first.calls)|..];
    assert sent == Response.Wire(first.calls) + tail;
    Echo.FirstReply(clock, m, tail);
    if Concat(segments) == Chunked.Encode(m.body + [""]) + tail {
      DecodedSegments(m.body, tail, segments);
    }
  }

  lemma {:induction false} DecodedSegments(body: seq<string>, tail: string, segments: seq<string>)
    requires "" !in body && Concat(segments) == Chunked.Encode(body + [""]) + tail
    ensures Chunked.Observe(Chunked.FeedAll(Chunked.START, segments)) == Chunked.Complete(body, tail)
  {
    hide Chunked.FeedAll, Chunked.Feed, Chunked.Observe, Chunked.Decode;
    Chunked.Segmentation(Chunked.START, segments);
    Chunked.MachineRefinesDecode([], Concat(segments));
    Chunked.DecodeEncode(body + [""], tail);
    Chunked.FirstEmptyAppend(body, []);
    assert body + [""] + [] == body + [""];
    assert [] + body == body;
    assert Chunked.Encode([]) + tail == tail;
    assert (body + [""])[..|body|] == body && (body + [""])[|body| + 1..] == [];
  }
}
