/** Every conversation takes place: for every user code and all callbacks of its parser, the loop has a run in
    which they occur, everything that is written is sent, and the stream is closed if it was shut down. */
module Conversations {
  import opened Text
  import Response
  import RequestParser
  import opened Uv
  import opened UvLaws
  import opened UvRuns
  import opened UvHistory
  import opened EndToEnd

  // ---------------------------------------------------------------- while data are being read

  /** A callback of the stream `h` that can be called as soon as user code returns. */
  predicate Settling(h: Ptr, o: Owed) {
    o.stream == h && (o.WriteDone? || o.ShutdownDone? || (o.ReadDone? && o.handed))
  }

  predicate OneShutdown(owed: seq<Owed>) {
    forall i, j :: 0 <= i < |owed| && 0 <= j < |owed| && owed[i].ShutdownDone? && owed[j].ShutdownDone? ==> i == j
  }

  /** Nothing but callbacks of the stream is owed, and blocks from `n` on are free. */
  ghost predicate Ready(s: State, h: Ptr, n: Ptr) {
    && Inv(s) && (forall p :: p in s.heap ==> p < n)
    && (forall o :: o in s.owed ==> Settling(h, o)) && OneShutdown(s.owed)
  }

  /** A call on the handle with blocks from `n` on; libuv takes all writes and the first shutdown. */
  ghost function Ask(s: State, h: Ptr, n: Ptr, call: Response.Call): Event {
    match call
    case UvWrite(bytes) => Event.UvWrite(h, bytes, n, n + 1, 0)
    case UvShutdown => Event.UvShutdown(h, n, if ShutdownOwed(s, h) then 1 else 0)
  }

  lemma {:induction false} AskGranted(s: State, h: Ptr, n: Ptr, call: Response.Call)
    requires Ready(s, h, n) && Reading(s, h)
    ensures var e := Ask(s, h, n, call);
            && Granted(s, h, e) && Enabled(s, e) && IsCall(e) && CallsOn(h, [e]) == [call]
            && !RefusesWrite(h, e) && !e.TcpConnect?
  {
    hide Inv;
    ReadingIsOpen(s, h);
    var e := Ask(s, h, n, call);
    assert [e][1..] == [];
  }

  /** One more callback owed. */
  lemma {:induction false} ReadyMore(s: State, h: Ptr, n: Ptr, o: Owed, s': State)
    requires Ready(s, h, n) && Inv(s') && s'.owed == s.owed + [o] && Settling(h, o)
    requires o.ShutdownDone? ==> !ShutdownOwed(s, h)
    requires forall p :: p in s'.heap ==> p < n + 2
    ensures Ready(s', h, n + 2) && (ShutdownOwed(s', h) <==> ShutdownOwed(s, h) || o.ShutdownDone?)
  {
    hide Inv;
    assert s'.owed[|s.owed|] == o;
    if o.ShutdownDone? {
      forall x | x in s.owed ensures !x.ShutdownDone? {
        assert Settling(h, x);
      }
    }
    assert s.owed <= s'.owed;
  }

  lemma {:induction false} AskStep(s: State, h: Ptr, n: Ptr, call: Response.Call)
    requires Enabled(s, Ask(s, h, n, call)) && forall p :: p in s.heap ==> p < n
    ensures var s' := Step(s, Ask(s, h, n, call));
            && (forall p :: p in s'.heap ==> p < n + 2)
            && s'.owed == if call.UvWrite? then s.owed + [WriteDone(h, n + 1, n)]
                          else if ShutdownOwed(s, h) then s.owed
                          else s.owed + [ShutdownDone(h, n)]
  {
    hide ShutdownOwed;
  }

  lemma {:induction false} AskKeepsReady(s: State, h: Ptr, n: Ptr, call: Response.Call)
    requires Ready(s, h, n) && Reading(s, h)
    ensures var s' := Step(s, Ask(s, h, n, call));
            && Ready(s', h, n + 2) && Reading(s', h)
            && (ShutdownOwed(s', h) <==> ShutdownOwed(s, h) || call.UvShutdown?)
  {
    AskGranted(s, h, n, call);
    AskStep(s, h, n, call);
    hide Inv, Granted, OneShutdown, ShutdownOwed, Reading, Step, Enabled;
    var e := Ask(s, h, n, call);
    var s' := Step(s, e);
    StepKeepsInv(s, e);
    CallKeepsReading(s, h, e);
    if call.UvWrite? {
      ReadyMore(s, h, n, WriteDone(h, n + 1, n), s');
    } else if !ShutdownOwed(s, h) {
      ReadyMore(s, h, n, ShutdownDone(h, n), s');
    } else {
      SameOwed(s, s', h);
    }
  }

  lemma {:induction false} SameOwed(s: State, s': State, h: Ptr)
    requires s'.owed == s.owed
    ensures ShutdownOwed(s', h) <==> ShutdownOwed(s, h)
  {
  }

  /** All calls of one parser callback. */
  lemma {:induction false} AskAll(s: State, h: Ptr, n: Ptr, calls: seq<Response.Call>)
    returns (during: seq<Event>, n': Ptr)
    requires Ready(s, h, n) && Reading(s, h)
    ensures AllGranted(s, h, during) && Allowed(s, during) && CallsOn(h, during) == calls
    ensures forall e :: e in during ==> !RefusesWrite(h, e) && !e.TcpConnect?
    ensures var s' := Run(s, during);
            && Ready(s', h, n') && Reading(s', h)
            && (ShutdownOwed(s', h) <==> ShutdownOwed(s, h) || Response.UvShutdown in calls)
    decreases |calls|
  {
    hide Inv, Step, Enabled, Granted, Ready, Reading, ShutdownOwed, RefusesWrite, Ask;
    if calls == [] {
      during, n' := [], n;
    } else {
      var call := calls[0];
      var e := Ask(s, h, n, call);
      AskGranted(s, h, n, call);
      AskKeepsReady(s, h, n, call);
      var rest;
      rest, n' := AskAll(Step(s, e), h, n + 2, calls[1..]);
      during := [e] + rest;
      assert during[1..] == rest;
      CallsOnAppend(h, [e], rest);
      assert calls == [call] + calls[1..];
    }
  }

  // ---------------------------------------------------------------- afterwards

  predicate IsSettling(e: Event) { e.WriteCb? || e.ReadCbFree? || e.ShutdownCb? }

  lemma {:induction false} FirstSettled(owed: seq<Owed>) returns (i: nat)
    requires exists o :: o in owed && !o.ShutdownDone?
    ensures i < |owed| && !owed[i].ShutdownDone? && forall j :: 0 <= j < i ==> owed[j].ShutdownDone?
  {
    if owed[0].ShutdownDone? {
      assert exists o :: o in owed[1..] && !o.ShutdownDone? by {
        var o :| o in owed && !o.ShutdownDone?;
        assert owed == [owed[0]] + owed[1..];
        assert o in owed[1..];
      }
      i := FirstSettled(owed[1..]);
      i := i + 1;
      assert forall j :: 0 < j < i ==> owed[j] == owed[1..][j - 1];
    } else {
      i := 0;
    }
  }

  lemma {:induction false} OneShutdownLess(owed: seq<Owed>, i: nat)
    requires i < |owed| && OneShutdown(owed)
    ensures OneShutdown(Without(owed, i))
  {
    var rest := Without(owed, i);
    forall j, k | 0 <= j < |rest| && 0 <= k < |rest| && rest[j].ShutdownDone? && rest[k].ShutdownDone? ensures j == k {
      assert rest[j] == owed[if j < i then j else j + 1] && rest[k] == owed[if k < i then k else k + 1];
    }
  }

  /** A write or read less. */
  lemma {:induction false} ReadyLess(s: State, h: Ptr, n: Ptr, i: nat, s': State)
    requires Ready(s, h, n) && i < |s.owed| && !s.owed[i].ShutdownDone?
    requires Inv(s') && s'.owed == Without(s.owed, i) && s'.heap.Keys <= s.heap.Keys
    ensures Ready(s', h, n) && |s'.owed| < |s.owed| && (ShutdownOwed(s', h) <==> ShutdownOwed(s, h))
  {
    OthersOwed(s.owed, i);
    OneShutdownLess(s.owed, i);
    hide Inv, OneShutdown;
  }

  /** The callback that comes next when a write or a read is owed. */
  lemma {:induction false} SettleOne(s: State, h: Ptr, n: Ptr) returns (e: Event)
    requires Ready(s, h, n) && exists o :: o in s.owed && !o.ShutdownDone?
    ensures (e.WriteCb? || e.ReadCbFree?) && Enabled(s, e) && Ready(Step(s, e), h, n)
    ensures |Step(s, e).owed| < |s.owed| && (ShutdownOwed(Step(s, e), h) <==> ShutdownOwed(s, h))
  {
    var i := FirstSettled(s.owed);
    assert s.owed[i] in s.owed && Settling(h, s.owed[i]);
    e := if s.owed[i].WriteDone? then WriteCb(i) else ReadCbFree(i);
    hide Inv, OneShutdown, Without;
    StepKeepsInv(s, e);
    ReadyLess(s, h, n, i, Step(s, e));
  }

  /** When only a shutdown is owed, it is completed and the stream closed. */
  lemma {:induction false} CloseOne(s: State, h: Ptr, n: Ptr)
    requires Ready(s, h, n) && s.owed != [] && forall o :: o in s.owed ==> o.ShutdownDone?
    ensures Enabled(s, ShutdownCb(0)) && Step(s, ShutdownCb(0)).owed == [CloseDone(h)] && ShutdownOwed(s, h)
  {
    assert s.owed[0] in s.owed && Settling(h, s.owed[0]);
    assert s.owed[|s.owed| - 1] in s.owed;
    assert |s.owed| - 1 == 0;
    assert Without(s.owed, 0) == [];
  }

  /** All writes and reads are completed, and then the shutdown. */
  lemma {:induction false} Settle(s: State, h: Ptr, n: Ptr) returns (events: seq<Event>)
    requires Ready(s, h, n)
    ensures Allowed(s, events) && forall e :: e in events ==> IsSettling(e)
    ensures Run(s, events).owed == if ShutdownOwed(s, h) then [CloseDone(h)] else []
    decreases |s.owed|
  {
    hide Inv, Enabled, Step;
    if s.owed == [] {
      events := [];
    } else if forall o :: o in s.owed ==> o.ShutdownDone? {
      CloseOne(s, h, n);
      events := [ShutdownCb(0)];
      assert events[1..] == [];
    } else {
      var e := SettleOne(s, h, n);
      var rest := Settle(Step(s, e), h, n);
      events := [e] + rest;
      assert events[1..] == rest;
    }
  }

  function Others(events: seq<Event>): seq<Happening> {
    if events == [] then [] else [Other(events[0])] + Others(events[1..])
  }

  lemma {:induction false} OthersOnly<S>(app: RequestParser.App<S>, c: RequestParser.Conn<S>, s: State, h: Ptr,
                                         events: seq<Event>)
    requires Allowed(s, events) && forall e :: e in events ==> IsSettling(e)
    ensures Wired(app, c, h, Others(events)) && Lawful(s, h, Others(events)) && CallsOn(h, events) == []
    ensures LoopEvents(Others(events)) == events && ParserEvents(Others(events)) == []
  {
    assert Others(events) + [] == Others(events) && events + LoopEvents([]) == events;
    OpeningEvents(events, h, []);
    OpeningParts(app, c, s, events, h, []);
  }

  // ---------------------------------------------------------------- a whole conversation

  /** A run from here in which these callbacks occur, all writes are taken, and nothing is owed in the end but
      the close of a stream that was shut down. */
  ghost predicate TakesPlace<S>(app: RequestParser.App<S>, c: RequestParser.Conn<S>, s: State, h: Ptr,
                                events: seq<RequestParser.Event>, hs: seq<Happening>) {
    && Wired(app, c, h, hs) && Lawful(s, h, hs) && ParserEvents(hs) == events
    && (forall e :: e in LoopEvents(hs) ==> !RefusesWrite(h, e) && !e.TcpConnect?)
    && Allowed(s, LoopEvents(hs))
    && Run(s, LoopEvents(hs)).owed ==
       if ShutdownOwed(s, h) || Response.UvShutdown in CallsOn(h, LoopEvents(hs)) then [CloseDone(h)] else []
  }

  lemma {:induction false} Finish<S>(app: RequestParser.App<S>, c: RequestParser.Conn<S>, s: State, h: Ptr, n: Ptr)
    returns (hs: seq<Happening>)
    requires Ready(s, h, n)
    ensures TakesPlace(app, c, s, h, [], hs)
  {
    var events := Settle(s, h, n);
    hide Ready, Run, Allowed, Inv, Wired, Lawful, ShutdownOwed, Others, LoopEvents, ParserEvents, CallsOn;
    hs := Others(events);
    OthersOnly(app, c, s, h, events);
  }

  lemma {:induction false} RunAppend(s: State, a: seq<Event>, b: seq<Event>)
    requires Allowed(s, a) && Allowed(Run(s, a), b)
    ensures Allowed(s, a + b) && Run(s, a + b) == Run(Run(s, a), b)
    decreases |a|
  {
    hide Step, Enabled;
    if a == [] {
      assert a + b == b;
    } else {
      assert (a + b)[1..] == a[1..] + b;
      RunAppend(Step(s, a[0]), a[1..], b);
    }
  }

  /** One more callback in front. */
  lemma {:induction false} Before<S>(app: RequestParser.App<S>, c: RequestParser.Conn<S>, s: State, h: Ptr,
                                     e: RequestParser.Event, during: seq<Event>,
                                     events: seq<RequestParser.Event>, rest: seq<Happening>)
    requires Reading(s, h) && AllGranted(s, h, during) && Allowed(s, during)
    requires RequestParser.EventStep(app, c, e).calls == c.calls + CallsOn(h, during)
    requires forall x :: x in during ==> !RefusesWrite(h, x) && !x.TcpConnect?
    requires ShutdownOwed(Run(s, during), h) <==> ShutdownOwed(s, h) || Response.UvShutdown in CallsOn(h, during)
    requires TakesPlace(app, RequestParser.EventStep(app, c, e), Run(s, during), h, events, rest)
    ensures TakesPlace(app, c, s, h, [e] + events, [Parser(e, during)] + rest)
  {
    hide RequestParser.EventStep, AllGranted, Reading, ShutdownOwed, RefusesWrite, Run, Allowed;
    var hs := [Parser(e, during)] + rest;
    assert hs[1..] == rest && LoopEvents(hs) == during + LoopEvents(rest) && ParserEvents(hs) == [e] + events;
    CallsOnAppend(h, during, LoopEvents(rest));
    RunAppend(s, during, LoopEvents(rest));
  }

  /** The operations of one callback are calls on the transport. */
  lemma {:induction false} NewCalls<S>(app: RequestParser.App<S>, c: RequestParser.Conn<S>, e: RequestParser.Event)
    returns (calls: seq<Response.Call>)
    ensures RequestParser.EventStep(app, c, e).calls == c.calls + calls
  {
    var c' := RequestParser.EventStep(app, c, e);
    CallsGrow(app, c, [e]);
    RequestParser.RunCons(app, c, e, []);
    assert [e] + [] == [e];
    calls := c'.calls[|c.calls|..];
  }

  lemma {:induction false} Converse<S>(app: RequestParser.App<S>, c: RequestParser.Conn<S>, s: State, h: Ptr, n: Ptr,
                                       events: seq<RequestParser.Event>) returns (hs: seq<Happening>)
    requires Ready(s, h, n) && Reading(s, h)
    ensures TakesPlace(app, c, s, h, events, hs)
    decreases |events|
  {
    hide Ready, Reading, TakesPlace, RequestParser.EventStep;
    if events == [] {
      hs := Finish(app, c, s, h, n);
    } else {
      var e := events[0];
      var calls := NewCalls(app, c, e);
      var during, n' := AskAll(s, h, n, calls);
      var rest := Converse(app, RequestParser.EventStep(app, c, e), Run(s, during), h, n', events[1..]);
      hs := [Parser(e, during)] + rest;
      Before(app, c, s, h, e, during, events[1..], rest);
      assert events == [e] + events[1..];
    }
  }

  /** A stream is accepted, its callback stored, and data are read from it. */
  const OPENING := [TcpInit(0), RequestOn(0), AllocCb(0, 1, 1), ReadCb(0, 1, "G")]

  /** The state then. */
  const READING := State(map[0 := Tcp(true), 1 := Bytes("G")], {0}, [ReadDone(0, 1, true)], multiset{}, {}, [], [],
                         [(0, "G")])

  const ALLOCATED := State(map[0 := Tcp(true), 1 := Bytes("\0")], {0}, [ReadDone(0, 1, false)], multiset{}, {}, [],
                           [], [])

  lemma {:induction false} OpeningAlloc()
    ensures DoAllocCb(DoRequestOn(DoTcpInit(INITIAL, 0), 0), 0, 1, 1) == ALLOCATED
  {
    var s := DoAllocCb(DoRequestOn(DoTcpInit(INITIAL, 0), 0), 0, 1, 1);
    assert s.heap[1].data == "\0";
    assert s.heap == ALLOCATED.heap;
  }

  lemma {:induction false} OpeningRead()
    ensures Enabled(ALLOCATED, ReadCb(0, 1, "G")) && DoReadCb(ALLOCATED, 0, 1, "G") == READING
  {
    assert BytesOf(ALLOCATED.heap, 1) == "\0";
    assert "G" + "\0"[1..] == "G";
    assert DoReadCb(ALLOCATED, 0, 1, "G").heap == READING.heap;
  }

  lemma {:induction false} OpeningSteps()
    ensures Allowed(INITIAL, OPENING) && Run(INITIAL, OPENING) == READING
  {
    OpeningAlloc();
    OpeningRead();
    hide DoAllocCb, DoReadCb;
    assert OPENING[1..] == [RequestOn(0), AllocCb(0, 1, 1), ReadCb(0, 1, "G")];
    assert OPENING[1..][1..] == [AllocCb(0, 1, 1), ReadCb(0, 1, "G")];
    assert OPENING[1..][1..][1..] == [ReadCb(0, 1, "G")] && OPENING[1..][1..][1..][1..] == [];
  }

  lemma {:induction false} Opened() returns (s: State)
    ensures Allowed(INITIAL, OPENING) && Run(INITIAL, OPENING) == s
    ensures Ready(s, 0, 2) && Reading(s, 0) && !ShutdownOwed(s, 0)
  {
    s := READING;
    OpeningSteps();
    Conservation(OPENING);
    hide Run, Allowed, Inv;
    assert s.owed[0] in s.owed;
  }

  lemma {:induction false} AfterOpening<S>(app: RequestParser.App<S>, c: RequestParser.Conn<S>, s: State,
                                           events: seq<Event>, h: Ptr, parsed: seq<RequestParser.Event>,
                                           rest: seq<Happening>)
    requires Allowed(s, events) && !ShutdownOwed(s, h) && !ShutdownOwed(Run(s, events), h)
    requires forall e :: e in events ==> !e.UvWrite? && !e.UvShutdown? && !e.TcpConnect?
    requires TakesPlace(app, c, Run(s, events), h, parsed, rest)
    ensures TakesPlace(app, c, s, h, parsed, Others(events) + rest)
    decreases |events|
  {
    OpeningParts(app, c, s, events, h, rest);
    OpeningEvents(events, h, rest);
    hide Wired, Lawful, ShutdownOwed, Run, Allowed;
    RunAppend(s, events, LoopEvents(rest));
    CallsOnAppend(h, events, LoopEvents(rest));
  }

  lemma {:induction false} OpeningEvents(events: seq<Event>, h: Ptr, rest: seq<Happening>)
    requires forall e :: e in events ==> !e.UvWrite? && !e.UvShutdown? && !e.TcpConnect?
    ensures var hs := Others(events) + rest;
            && CallsOn(h, events) == []
            && LoopEvents(hs) == events + LoopEvents(rest) && ParserEvents(hs) == ParserEvents(rest)
  {
    var hs := Others(events) + rest;
    if events == [] {
      assert hs == rest;
    } else {
      assert events[0] in events;
      OpeningEvents(events[1..], h, rest);
      assert hs[0] == Other(events[0]) && hs[1..] == Others(events[1..]) + rest;
      assert [events[0]] + (events[1..] + LoopEvents(rest)) == events + LoopEvents(rest);
      assert [] + ParserEvents(rest) == ParserEvents(rest);
    }
  }

  lemma {:induction false} OpeningParts<S>(app: RequestParser.App<S>, c: RequestParser.Conn<S>, s: State,
                                           events: seq<Event>, h: Ptr, rest: seq<Happening>)
    requires Allowed(s, events) && Wired(app, c, h, rest) && Lawful(Run(s, events), h, rest)
    requires forall e :: e in events ==> !e.UvWrite? && !e.UvShutdown? && !e.TcpConnect?
    ensures Wired(app, c, h, Others(events) + rest) && Lawful(s, h, Others(events) + rest)
    decreases |events|
  {
    hide Enabled, Step, RequestParser.EventStep;
    var hs := Others(events) + rest;
    if events == [] {
      assert hs == rest;
    } else {
      var e := events[0];
      NoCallOn(h, e);
      OpeningParts(app, c, Step(s, e), events[1..], h, rest);
      assert hs[0] == Other(e) && hs[1..] == Others(events[1..]) + rest;
    }
  }

  lemma {:induction false} NoCallOn(h: Ptr, e: Event)
    requires !e.UvWrite? && !e.UvShutdown?
    ensures CallsOn(h, [e]) == []
  {
    assert [e][1..] == [] && CallsOn(h, [e][1..]) == [];
  }

  /** For every user code and every sequence of parser callbacks there is a run of the loop with a connection on
      which they occur, in which exactly the bytes that the HTTP layer writes are sent, and the stream is
      being closed in the end if and only if the HTTP layer has shut it down. */
  lemma {:induction false} Conversation<S>(app: RequestParser.App<S>, user: S, events: seq<RequestParser.Event>)
    returns (hs: seq<Happening>)
    ensures ServerRun(app, user, [], 0, hs) && ParserEvents(hs) == events && Allowed(INITIAL, LoopEvents(hs))
    ensures var s := Run(INITIAL, LoopEvents(hs));
            var calls := RequestParser.Run(app, RequestParser.Fresh(user), events).calls;
            && Concat(On(0, s.sent)) == Response.Wire(calls)
            && s.owed == if Response.UvShutdown in calls then [CloseDone(0)] else []
  {
    hide Ready, Reading, Wired, Lawful;
    var c := RequestParser.Fresh(user);
    var s := Opened();
    var rest := Converse(app, c, s, 0, 2, events);
    hs := Others(OPENING) + rest;
    NothingShut();
    AfterOpening(app, c, INITIAL, OPENING, 0, events, rest);
    hide RequestParser.Run, RequestParser.EventStep, Response.Wire;
    assert Run(INITIAL, []) == INITIAL;
    CallsMade(app, c, 0, hs);
    var calls := CallsOn(0, LoopEvents(hs));
    assert [] + calls == calls;
    WireDelivered(app, user, [], 0, hs);
    var sent := On(0, Run(INITIAL, LoopEvents(hs)).sent);
    assert On(0, INITIAL.sent) == [] && sent[0..] == sent;
  }

  lemma {:induction false} NothingShut()
    ensures !ShutdownOwed(INITIAL, 0)
  {
  }
}
