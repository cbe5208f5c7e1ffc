/** What user code is told, for every run of parser callbacks and every user code. */
module RequestLaws {
  import opened Text
  import opened HeaderBlock
  import opened Response
  import opened RequestParser

  // ---------------------------------------------------------------- deliveries of any trace

  /** The references collected for the next request. */
  datatype Acc = Acc(url: string, fields: seq<string>, values: seq<string>)

  function AccOf<S>(c: Conn<S>): Acc { Acc(c.url, c.fields, c.values) }

  function Collect(a: Acc, e: Event): Acc {
    match e
    case Url(u) => a.(url := u)
    case HeaderField(f) => a.(fields := [f] + a.fields)
    case HeaderValue(v) => a.(values := [v] + a.values)
    case _ => a
  }

  function CollectAll(a: Acc, events: seq<Event>): Acc
    decreases |events|
  {
    if events == [] then a else CollectAll(Collect(a, events[0]), events[1..])
  }

  /** A delivery without the handler it went to. */
  datatype Notice = Requested(req: Req) | GotData(fragment: string) | Ended | Failed

  function NoticeOf(d: Delivery): Notice {
    match d
    case ToRequest(req) => Requested(req)
    case ToData(_, fragment) => GotData(fragment)
    case ToEnd(_) => Ended
    case Raised => Failed
  }

  function Notices(log: seq<Delivery>): seq<Notice> {
    seq(|log|, i requires 0 <= i < |log| => NoticeOf(log[i]))
  }

  /** What one callback has to tell user code: nothing or one thing. Headers that are complete
      become a request exactly when there are as many fields as values. */
  function Due(a: Acc, e: Event): seq<Notice> {
    match e
    case HeadersComplete =>
      (match FoldLeft2(map[], a.fields, a.values)
       case Some(headers) => [Requested(Req(a.url, headers))]
       case None => [Failed])
    case Body(text) => [GotData(text)]
    case MessageComplete => [Ended]
    case _ => []
  }

  function AllDue(a: Acc, events: seq<Event>): seq<Notice>
    decreases |events|
  {
    if events == [] then [] else Due(a, events[0]) + AllDue(Collect(a, events[0]), events[1..])
  }

  lemma {:induction false} StepDelivers<S>(app: App<S>, c: Conn<S>, e: Event)
    ensures var c' := EventStep(app, c, e);
            AccOf(c') == Collect(AccOf(c), e) && Notices(c'.log) == Notices(c.log) + Due(AccOf(c), e)
  {
  }

  /** What is delivered depends on the callbacks alone. */
  lemma {:induction false} RunDelivers<S>(app: App<S>, c: Conn<S>, events: seq<Event>)
    ensures var c' := Run(app, c, events);
            && AccOf(c') == CollectAll(AccOf(c), events)
            && Notices(c'.log) == Notices(c.log) + AllDue(AccOf(c), events)
    decreases |events|
  {
    hide EventStep, Due, Collect;
    if events == [] {
      assert Notices(c.log) + [] == Notices(c.log);
    } else {
      var c1 := EventStep(app, c, events[0]);
      StepDelivers(app, c, events[0]);
      RunDelivers(app, c1, events[1..]);
      var due, rest := Due(AccOf(c), events[0]), AllDue(AccOf(c1), events[1..]);
      assert Notices(c.log) + due + rest == Notices(c.log) + (due + rest);
    }
  }

  // ---------------------------------------------------------------- the handler current at the moment

  /** The last handler registered for body fragments. */
  function LastData(ops: seq<Op>): Handler {
    if ops == [] then Ignore
    else
      var op := ops[|ops| - 1];
      if op.On? && op.listener.Data? then op.listener.handler else LastData(ops[..|ops| - 1])
  }

  function LastEnd(ops: seq<Op>): Handler {
    if ops == [] then Ignore
    else
      var op := ops[|ops| - 1];
      if op.On? && op.listener.End? then op.listener.handler else LastEnd(ops[..|ops| - 1])
  }

  lemma {:induction false} ApplyOne(res: Res, op: Op)
    ensures ApplyAll(res, [op]).0 == Apply(res, op).0
  {
    hide Apply;
    assert [op][1..] == [];
  }

  lemma {:induction false} LastRegistered(ops: seq<Op>)
    ensures ApplyAll(INITIAL, ops).0.onData == LastData(ops)
    ensures ApplyAll(INITIAL, ops).0.onEnd == LastEnd(ops)
  {
    hide Payload;
    if ops != [] {
      var init, last := ops[..|ops| - 1], ops[|ops| - 1];
      LastRegistered(init);
      assert ops == init + [last];
      ApplyAllAppend(INITIAL, init, [last]);
      ApplyOne(ApplyAll(INITIAL, init).0, last);
    }
  }

  /** The handler of the delivery is the one registered last in these operations. */
  predicate Current(d: Delivery, ops: seq<Op>) {
    match d
    case ToData(h, _) => h == LastData(ops)
    case ToEnd(h) => h == LastEnd(ops)
    case _ => true
  }

  // ---------------------------------------------------------------- the calls of user code

  /** One call of user code with the content of a delivery. A handler that nobody registered does
      nothing, and an exception keeps user code from being called. */
  function Invoke<S>(app: App<S>, user: S, d: Delivery): (S, seq<Op>) {
    match d
    case ToRequest(req) => app.request(user, req)
    case ToData(Closure(id), fragment) => app.data(user, id, fragment)
    case ToEnd(Closure(id)) => app.end(user, id)
    case _ => (user, [])
  }

  /** User code called once for each delivery, in order: its state and all its operations. */
  function Replay<S>(app: App<S>, user: S, log: seq<Delivery>): (S, seq<Op>)
    decreases |log|
  {
    if log == [] then (user, [])
    else
      var (before, ops) := Replay(app, user, log[..|log| - 1]);
      var (after, more) := Invoke(app, before, log[|log| - 1]);
      (after, ops + more)
  }

  lemma {:induction false} ReplaySnoc<S>(app: App<S>, user: S, log: seq<Delivery>, d: Delivery)
    ensures var (before, ops) := Replay(app, user, log);
            var (after, more) := Invoke(app, before, d);
            Replay(app, user, log + [d]) == (after, ops + more)
  {
    assert (log + [d])[..|log|] == log;
  }

  lemma {:induction false} ReplayPrefix<S>(app: App<S>, user: S, log: seq<Delivery>, i: nat)
    requires i <= |log|
    ensures Replay(app, user, log[..i]).1 <= Replay(app, user, log).1
    decreases |log|
  {
    hide Invoke;
    if i < |log| {
      ReplayPrefix(app, user, log[..|log| - 1], i);
      assert log[..|log| - 1][..i] == log[..i];
    } else {
      assert log[..i] == log;
    }
  }

  /** User code has been called exactly for the deliveries, once each and in order, since it was in
      state `user`; every handler called was the one registered last by the calls before it; and the
      response and the output are those of the operations these calls returned. */
  ghost predicate Faithful<S>(app: App<S>, user: S, c: Conn<S>) {
    && (c.user, c.ops) == Replay(app, user, c.log)
    && (forall i :: 0 <= i < |c.log| ==> Current(c.log[i], Replay(app, user, c.log[..i]).1))
    && (c.res, c.calls) == ApplyAll(INITIAL, c.ops)
  }

  lemma {:induction false} RunOpsFaithful<S>(app: App<S>, user: S, c: Conn<S>, d: Delivery)
    requires Faithful(app, user, c) && Current(d, c.ops)
    ensures Faithful(app, user, RunOps(c, d, Invoke(app, c.user, d)))
  {
    hide ApplyAll, Current, Invoke, Replay;
    var c' := RunOps(c, d, Invoke(app, c.user, d));
    ApplyAllAppend(INITIAL, c.ops, Invoke(app, c.user, d).1);
    ReplaySnoc(app, user, c.log, d);
    forall i | 0 <= i < |c'.log| ensures Current(c'.log[i], Replay(app, user, c'.log[..i]).1) {
      assert c'.log[..i] == if i < |c.log| then c.log[..i] else c.log;
    }
  }

  lemma {:induction false} RaisedFaithful<S>(app: App<S>, user: S, c: Conn<S>)
    requires Faithful(app, user, c)
    ensures Faithful(app, user, c.(log := c.log + [Raised]))
  {
    assert RunOps(c, Raised, (c.user, [])) == c.(log := c.log + [Raised]) by {
      assert ApplyAll(c.res, []) == (c.res, []);
      assert c.calls + [] == c.calls && c.ops + [] == c.ops;
    }
    RunOpsFaithful(app, user, c, Raised);
  }

  lemma {:induction false} FaithfulHandlers<S>(app: App<S>, user: S, c: Conn<S>)
    requires Faithful(app, user, c)
    ensures c.res.onData == LastData(c.ops) && c.res.onEnd == LastEnd(c.ops)
  {
    LastRegistered(c.ops);
  }

  lemma {:induction false} StepFaithful<S>(app: App<S>, user: S, c: Conn<S>, e: Event)
    requires Faithful(app, user, c)
    ensures Faithful(app, user, EventStep(app, c, e))
  {
    hide ApplyAll, Replay, LastData, LastEnd, RunOps;
    FaithfulHandlers(app, user, c);
    match e {
      case HeadersComplete =>
        var headers := FoldLeft2(map[], c.fields, c.values);
        if headers.Some? {
          RunOpsFaithful(app, user, c, ToRequest(Req(c.url, headers.value)));
        } else {
          RaisedFaithful(app, user, c);
        }
      case Body(text) => RunOpsFaithful(app, user, c, ToData(c.res.onData, text));
      case MessageComplete => RunOpsFaithful(app, user, c, ToEnd(c.res.onEnd));
      case _ =>
    }
  }

  lemma {:induction false} RunFaithful<S>(app: App<S>, user: S, c: Conn<S>, events: seq<Event>)
    requires Faithful(app, user, c)
    ensures Faithful(app, user, Run(app, c, events))
    decreases |events|
  {
    hide EventStep, Faithful;
    if events != [] {
      StepFaithful(app, user, c, events[0]);
      RunFaithful(app, user, EventStep(app, c, events[0]), events[1..]);
    }
  }

  lemma {:induction false} FreshFaithful<S>(app: App<S>, user: S)
    ensures Faithful(app, user, Fresh(user))
  {
  }

  /** The references of a new connection. */
  const EMPTY := Acc("", [], [])

  /** For every trace and every user code: what is due is delivered exactly once and in order, user code
      is called for these deliveries and no others, and each handler called is the one registered
      last at that moment. */
  lemma {:induction false} ExactlyOnceInOrder<S>(app: App<S>, user: S, events: seq<Event>)
    ensures var c := Run(app, Fresh(user), events);
            && Notices(c.log) == AllDue(EMPTY, events)
            && Faithful(app, user, c)
  {
    hide Faithful, Run, AllDue, CollectAll, Replay;
    FreshFaithful(app, user);
    assert Notices([]) == [];
    RunDelivers(app, Fresh(user), events);
    RunFaithful(app, user, Fresh(user), events);
    assert [] + AllDue(EMPTY, events) == AllDue(EMPTY, events);
  }

  // ---------------------------------------------------------------- whole fields and values

  /** A field is due, or the value of the field that is open. */
  predicate InTurn(open: bool, e: Event) {
    match e
    case HeaderField(_) => !open
    case HeaderValue(_) => open
    case HeadersComplete => !open
    case _ => true
  }

  function OpenAfter(open: bool, e: Event): bool {
    match e case HeaderField(_) => true case HeaderValue(_) => false case _ => open
  }

  /** Fields and values come in turn. */
  predicate Alternates(open: bool, events: seq<Event>)
    decreases |events|
  {
    events == [] || (InTurn(open, events[0]) && Alternates(OpenAfter(open, events[0]), events[1..]))
  }

  /** The lines received: every field with the value after it, and a field still without one. */
  datatype Received = Received(lines: seq<(string, string)>, open: Option<string>)

  function Receive(r: Received, e: Event): Received {
    match e
    case HeaderField(f) => r.(open := Some(f))
    case HeaderValue(v) => if r.open.Some? then Received(r.lines + [(r.open.value, v)], None) else r
    case _ => r
  }

  function ReceiveAll(r: Received, events: seq<Event>): Received
    decreases |events|
  {
    if events == [] then r else ReceiveAll(Receive(r, events[0]), events[1..])
  }

  /** The accumulators hold these lines, each name beside its own value. */
  predicate Holds(a: Acc, r: Received) {
    && a.values == Values(r.lines)
    && a.fields == (if r.open.Some? then [r.open.value] else []) + Fields(r.lines)
  }

  lemma {:induction false} PairStep(a: Acc, r: Received, e: Event)
    requires Holds(a, r) && InTurn(r.open.Some?, e)
    ensures Holds(Collect(a, e), Receive(r, e)) && Receive(r, e).open.Some? == OpenAfter(r.open.Some?, e)
    ensures Failed !in Due(a, e)
  {
    match e {
      case HeaderValue(v) =>
        var lines := Receive(r, e).lines;
        assert lines[..|lines| - 1] == r.lines;
      case HeadersComplete => FoldLeft2Defined(map[], a.fields, a.values);
      case _ =>
    }
  }

  /** Whole fields and values in turn: at every moment there are as many fields as values or one more,
      each name is beside its own value, and `fold_left2` never raises. */
  lemma {:induction false} WholeCallbacksPair(a: Acc, r: Received, events: seq<Event>)
    requires Holds(a, r) && Alternates(r.open.Some?, events)
    ensures var a' := CollectAll(a, events);
            Holds(a', ReceiveAll(r, events)) && 0 <= |a'.fields| - |a'.values| <= 1
    ensures Failed !in AllDue(a, events)
    decreases |events|
  {
    hide Collect, Receive, Due, InTurn, OpenAfter;
    if events != [] {
      PairStep(a, r, events[0]);
      WholeCallbacksPair(Collect(a, events[0]), Receive(r, events[0]), events[1..]);
    }
  }

  // ---------------------------------------------------------------- requests on a connection

  /** A request as it arrives: pieces of its URL, header lines, body fragments. */
  datatype Message = Message(urls: seq<string>, lines: seq<(string, string)>, body: seq<string>)

  function UrlEvents(urls: seq<string>): seq<Event> {
    if urls == [] then [] else [Url(urls[0])] + UrlEvents(urls[1..])
  }

  function LineEvents(lines: seq<(string, string)>): seq<Event> {
    if lines == [] then [] else [HeaderField(lines[0].0), HeaderValue(lines[0].1)] + LineEvents(lines[1..])
  }

  function BodyEvents(body: seq<string>): seq<Event> {
    if body == [] then [] else [Body(body[0])] + BodyEvents(body[1..])
  }

  function MessageEvents(m: Message): seq<Event> {
    [MessageBegin] + (UrlEvents(m.urls) + (LineEvents(m.lines) +
    ([HeadersComplete] + (BodyEvents(m.body) + [MessageComplete]))))
  }

  function Trace(msgs: seq<Message>): seq<Event> {
    if msgs == [] then [] else MessageEvents(msgs[0]) + Trace(msgs[1..])
  }

  /** The pieces of a URL are not joined: the last one is kept. */
  function LastUrl(url: string, urls: seq<string>): string {
    if urls == [] then url else urls[|urls| - 1]
  }

  function Fragments(body: seq<string>): seq<Notice> {
    if body == [] then [] else [GotData(body[0])] + Fragments(body[1..])
  }

  /** What user code is told of messages that follow `lines` on their connection: for each one its
      request, its fragments, its end. */
  function Told(url: string, lines: seq<(string, string)>, msgs: seq<Message>): seq<Notice>
    decreases |msgs|
  {
    if msgs == [] then []
    else
      var m := msgs[0];
      var url', lines' := LastUrl(url, m.urls), lines + m.lines;
      [Requested(Req(url', FieldMap(lines')))] + Fragments(m.body) + [Ended] + Told(url', lines', msgs[1..])
  }

  lemma {:induction false} DueAppend(a: Acc, x: seq<Event>, y: seq<Event>)
    ensures CollectAll(a, x + y) == CollectAll(CollectAll(a, x), y)
    ensures AllDue(a, x + y) == AllDue(a, x) + AllDue(CollectAll(a, x), y)
    decreases |x|
  {
    hide Due, Collect;
    if x == [] {
      assert x + y == y;
      assert [] + AllDue(a, y) == AllDue(a, y);
    } else {
      assert (x + y)[1..] == x[1..] + y;
      var a1 := Collect(a, x[0]);
      DueAppend(a1, x[1..], y);
      var d, p, q := Due(a, x[0]), AllDue(a1, x[1..]), AllDue(CollectAll(a1, x[1..]), y);
      assert d + (p + q) == d + p + q;
    }
  }

  lemma {:induction false} UrlsDue(a: Acc, urls: seq<string>)
    ensures CollectAll(a, UrlEvents(urls)) == a.(url := LastUrl(a.url, urls))
    ensures AllDue(a, UrlEvents(urls)) == []
    decreases |urls|
  {
    if urls != [] {
      assert UrlEvents(urls) == [Url(urls[0])] + UrlEvents(urls[1..]);
      var next := Collect(a, Url(urls[0]));
      UrlsDue(next, urls[1..]);
      assert LastUrl(next.url, urls[1..]) == LastUrl(a.url, urls);
    }
  }

  lemma {:induction false} LineDue(a: Acc, before: seq<(string, string)>, line: (string, string), tail: seq<Event>)
    requires a.fields == Fields(before) && a.values == Values(before)
    ensures var a' := Acc(a.url, Fields(before + [line]), Values(before + [line]));
            var events := [HeaderField(line.0), HeaderValue(line.1)] + tail;
            CollectAll(a, events) == CollectAll(a', tail) && AllDue(a, events) == AllDue(a', tail)
  {
    var events := [HeaderField(line.0), HeaderValue(line.1)] + tail;
    assert events[1..] == [HeaderValue(line.1)] + tail && events[1..][1..] == tail;
    assert (before + [line])[..|before|] == before;
  }

  lemma {:induction false} LinesDue(a: Acc, before: seq<(string, string)>, lines: seq<(string, string)>)
    requires a.fields == Fields(before) && a.values == Values(before)
    ensures CollectAll(a, LineEvents(lines)) == Acc(a.url, Fields(before + lines), Values(before + lines))
    ensures AllDue(a, LineEvents(lines)) == []
    decreases |lines|
  {
    hide Fields, Values, Collect, Due;
    if lines == [] {
      assert before + lines == before;
    } else {
      var next := before + [lines[0]];
      LineDue(a, before, lines[0], LineEvents(lines[1..]));
      LinesDue(Acc(a.url, Fields(next), Values(next)), next, lines[1..]);
      assert next + lines[1..] == before + lines;
    }
  }

  lemma {:induction false} BodyDue(a: Acc, body: seq<string>)
    ensures CollectAll(a, BodyEvents(body)) == a
    ensures AllDue(a, BodyEvents(body)) == Fragments(body)
    decreases |body|
  {
    if body != [] {
      assert BodyEvents(body)[1..] == BodyEvents(body[1..]);
      BodyDue(a, body[1..]);
    }
  }

  lemma {:induction false} HeadersDue(a: Acc, lines: seq<(string, string)>, tail: seq<Event>)
    requires a.fields == Fields(lines) && a.values == Values(lines)
    ensures CollectAll(a, [HeadersComplete] + tail) == CollectAll(a, tail)
    ensures AllDue(a, [HeadersComplete] + tail) == [Requested(Req(a.url, FieldMap(lines)))] + AllDue(a, tail)
  {
    assert ([HeadersComplete] + tail)[1..] == tail;
    FoldOfLines(map[], lines);
    assert map[] + FieldMap(lines) == FieldMap(lines);
  }

  lemma {:induction false} EndDue(a: Acc, body: seq<string>)
    ensures CollectAll(a, BodyEvents(body) + [MessageComplete]) == a
    ensures AllDue(a, BodyEvents(body) + [MessageComplete]) == Fragments(body) + [Ended]
  {
    DueAppend(a, BodyEvents(body), [MessageComplete]);
    BodyDue(a, body);
    assert CollectAll(a, [MessageComplete]) == CollectAll(a, []);
    assert AllDue(a, [MessageComplete]) == [Ended] + AllDue(a, []);
  }

  lemma {:induction false} BeginDue(a: Acc, tail: seq<Event>)
    ensures CollectAll(a, [MessageBegin] + tail) == CollectAll(a, tail)
    ensures AllDue(a, [MessageBegin] + tail) == AllDue(a, tail)
  {
    assert ([MessageBegin] + tail)[1..] == tail;
  }

  lemma {:induction false} MessageDue(url: string, lines: seq<(string, string)>, m: Message)
    ensures var a := Acc(url, Fields(lines), Values(lines));
            var url', lines' := LastUrl(url, m.urls), lines + m.lines;
            && CollectAll(a, MessageEvents(m)) == Acc(url', Fields(lines'), Values(lines'))
            && AllDue(a, MessageEvents(m)) ==
               [Requested(Req(url', FieldMap(lines')))] + Fragments(m.body) + [Ended]
  {
    hide CollectAll, AllDue, FieldMap, Fields, Values, UrlEvents, LineEvents, BodyEvents, Fragments, LastUrl;
    var a := Acc(url, Fields(lines), Values(lines));
    var a1 := a.(url := LastUrl(url, m.urls));
    var all := lines + m.lines;
    var a2 := Acc(a1.url, Fields(all), Values(all));
    var end := BodyEvents(m.body) + [MessageComplete];
    var complete := [HeadersComplete] + end;
    var fromLines := LineEvents(m.lines) + complete;
    BeginDue(a, UrlEvents(m.urls) + fromLines);
    DueAppend(a, UrlEvents(m.urls), fromLines);
    UrlsDue(a, m.urls);
    DueAppend(a1, LineEvents(m.lines), complete);
    LinesDue(a1, lines, m.lines);
    HeadersDue(a2, all, end);
    EndDue(a2, m.body);
    ToldOnce(Requested(Req(a1.url, FieldMap(all))), Fragments(m.body));
  }

  lemma {:induction false} ToldOnce(request: Notice, fragments: seq<Notice>)
    ensures [] + ([] + ([request] + (fragments + [Ended]))) == [request] + fragments + [Ended]
  {
  }

  lemma {:induction false} TraceDue(url: string, lines: seq<(string, string)>, msgs: seq<Message>)
    ensures AllDue(Acc(url, Fields(lines), Values(lines)), Trace(msgs)) == Told(url, lines, msgs)
    decreases |msgs|
  {
    hide Due, Collect, FieldMap, Fields, Values, MessageEvents;
    if msgs != [] {
      var m := msgs[0];
      DueAppend(Acc(url, Fields(lines), Values(lines)), MessageEvents(m), Trace(msgs[1..]));
      MessageDue(url, lines, m);
      TraceDue(LastUrl(url, m.urls), lines + m.lines, msgs[1..]);
    }
  }

  /** Callbacks that only collect. */
  predicate Quiet(events: seq<Event>) {
    forall e :: e in events ==> !e.HeadersComplete? && !e.Body? && !e.MessageComplete?
  }

  lemma {:induction false} QuietRun<S>(app: App<S>, c: Conn<S>, events: seq<Event>)
    requires Quiet(events)
    ensures var c' := Run(app, c, events); c'.ops == c.ops && c'.res == c.res && c'.user == c.user
    decreases |events|
  {
    if events != [] {
      QuietRun(app, EventStep(app, c, events[0]), events[1..]);
    }
  }

  lemma {:induction false} QuietHeaders(urls: seq<string>, lines: seq<(string, string)>)
    ensures Quiet(UrlEvents(urls)) && Quiet(LineEvents(lines))
    decreases |urls| + |lines|
  {
    if urls != [] {
      QuietHeaders(urls[1..], lines);
    } else if lines != [] {
      QuietHeaders(urls, lines[1..]);
    }
  }

  /** The callbacks before a request is complete leave user code out and collect the lines. */
  lemma {:induction false} Begun<S>(app: App<S>, c: Conn<S>, lines: seq<(string, string)>, m: Message)
    requires c.fields == Fields(lines) && c.values == Values(lines)
    ensures var c' := Run(app, c, [MessageBegin] + (UrlEvents(m.urls) + LineEvents(m.lines)));
            && c'.ops == c.ops && c'.res == c.res && c'.user == c.user
            && c'.url == LastUrl(c.url, m.urls) && |c'.fields| == |c'.values|
  {
    var begin := [MessageBegin] + (UrlEvents(m.urls) + LineEvents(m.lines));
    QuietHeaders(m.urls, m.lines);
    QuietRun(app, c, begin);
    RunDelivers(app, c, begin);
    var a := AccOf(c);
    assert begin[1..] == UrlEvents(m.urls) + LineEvents(m.lines);
    DueAppend(a, UrlEvents(m.urls), LineEvents(m.lines));
    UrlsDue(a, m.urls);
    LinesDue(a.(url := LastUrl(a.url, m.urls)), lines, m.lines);
  }

  /** On a new connection, for every sequence of messages and every user code: each message's
      request, then its fragments in order, then its end, and nothing else. The headers of a request
      are those of all messages so far. */
  lemma {:induction false} RequestsTold<S>(app: App<S>, user: S, msgs: seq<Message>)
    ensures var c := Run(app, Fresh(user), Trace(msgs));
            Notices(c.log) == Told("", [], msgs) && Faithful(app, user, c)
  {
    hide Faithful;
    ExactlyOnceInOrder(app, user, Trace(msgs));
    TraceDue("", [], msgs);
    assert EMPTY == Acc("", Fields([]), Values([]));
  }

  lemma {:induction false} FirstCall<S>(app: App<S>, user: S, c: Conn<S>, req: Req)
    requires Faithful(app, user, c) && c.log != [] && c.log[0] == ToRequest(req)
    ensures app.request(user, req).1 <= c.ops
  {
    assert c.log[..1][..0] == [] && c.log[..1][0] == ToRequest(req);
    assert Replay(app, user, c.log[..1]).1 == [] + app.request(user, req).1;
    ReplayPrefix(app, user, c.log, 1);
  }

  /** The first request: user code is called first with exactly the received names, each bound to its
      earliest value, and does first what it answers to that. */
  lemma {:induction false} FirstOccurrenceWins<S>(app: App<S>, user: S, m: Message)
    ensures var c := Run(app, Fresh(user), MessageEvents(m));
            && c.log != [] && c.log[0].ToRequest?
            && var req := c.log[0].req;
               && req.url == LastUrl("", m.urls) && BindsFirst(req.headers, m.lines)
               && Faithful(app, user, c) && app.request(user, req).1 <= c.ops
  {
    hide Faithful, Run;
    var c := Run(app, Fresh(user), MessageEvents(m));
    var req := Req(LastUrl("", m.urls), FieldMap(m.lines));
    RequestsTold(app, user, [m]);
    assert Trace([m]) == MessageEvents(m) + [];
    assert MessageEvents(m) + [] == MessageEvents(m);
    assert [] + m.lines == m.lines;
    FieldMapBindsFirst(m.lines);
    assert Notices(c.log)[0] == Told("", [], [m])[0] == Requested(req);
    FirstCall(app, user, c, req);
  }

  lemma {:induction false} FieldMapAppend(a: seq<(string, string)>, b: seq<(string, string)>)
    ensures FieldMap(a + b) == FieldMap(b) + FieldMap(a)
  {
    if a == [] {
      assert a + b == b;
    } else {
      assert (a + b)[1..] == a[1..] + b;
      FieldMapAppend(a[1..], b);
    }
  }

  function LinesOf(msgs: seq<Message>): seq<(string, string)> {
    if msgs == [] then [] else msgs[0].lines + LinesOf(msgs[1..])
  }

  /** The requests among the notices. */
  function Requests(notices: seq<Notice>): seq<Req> {
    if notices == [] then []
    else if notices[0].Requested? then [notices[0].req] + Requests(notices[1..])
    else Requests(notices[1..])
  }

  lemma {:induction false} RequestsAppend(a: seq<Notice>, b: seq<Notice>)
    ensures Requests(a + b) == Requests(a) + Requests(b)
  {
    if a == [] {
      assert a + b == b;
    } else {
      assert (a + b)[1..] == a[1..] + b;
      RequestsAppend(a[1..], b);
    }
  }

  lemma {:induction false} NoRequestsInFragments(body: seq<string>)
    ensures Requests(Fragments(body) + [Ended]) == []
  {
    if body == [] {
      assert Fragments(body) + [Ended] == [Ended];
      assert Requests([Ended]) == Requests([]);
    } else {
      NoRequestsInFragments(body[1..]);
      assert (Fragments(body) + [Ended])[1..] == Fragments(body[1..]) + [Ended];
    }
  }

  lemma {:induction false} RequestsCons(req: Req, notices: seq<Notice>)
    ensures Requests([Requested(req)] + notices) == [req] + Requests(notices)
  {
    assert ([Requested(req)] + notices)[1..] == notices;
  }

  lemma {:induction false} RequestsOfFirst(url: string, lines: seq<(string, string)>, msgs: seq<Message>)
    requires msgs != []
    ensures var url', lines' := LastUrl(url, msgs[0].urls), lines + msgs[0].lines;
            Requests(Told(url, lines, msgs)) == [Req(url', FieldMap(lines'))] + Requests(Told(url', lines', msgs[1..]))
  {
    hide FieldMap, Fragments, Requests;
    var m := msgs[0];
    var url', lines' := LastUrl(url, m.urls), lines + m.lines;
    var req, rest := Req(url', FieldMap(lines')), Told(url', lines', msgs[1..]);
    var fragments := Fragments(m.body);
    ToldRest(req, fragments, rest);
    RequestsCons(req, fragments + [Ended] + rest);
    RequestsAppend(fragments + [Ended], rest);
    NoRequestsInFragments(m.body);
    assert [] + Requests(rest) == Requests(rest);
  }

  lemma {:induction false} ToldRest(req: Req, fragments: seq<Notice>, rest: seq<Notice>)
    ensures [Requested(req)] + fragments + [Ended] + rest == [Requested(req)] + (fragments + [Ended] + rest)
  {
  }

  lemma {:induction false} LinesOfFirst(lines: seq<(string, string)>, msgs: seq<Message>, n: nat)
    requires n < |msgs|
    ensures lines + LinesOf(msgs[..n + 1]) == lines + msgs[0].lines + LinesOf(msgs[1..][..n])
  {
    assert msgs[..n + 1][1..] == msgs[1..][..n];
    Associative(lines, msgs[0].lines, LinesOf(msgs[1..][..n]));
  }

  lemma {:induction false} RequestsOfTold(url: string, lines: seq<(string, string)>, msgs: seq<Message>, n: nat)
    requires n < |msgs|
    ensures var reqs := Requests(Told(url, lines, msgs));
            && |reqs| == |msgs| && reqs[n].headers == FieldMap(lines + LinesOf(msgs[..n + 1]))
            && reqs[n].url == LastUrl(if n == 0 then url else reqs[n - 1].url, msgs[n].urls)
    decreases |msgs|
  {
    hide FieldMap, LastUrl, Fragments;
    var url', lines' := LastUrl(url, msgs[0].urls), lines + msgs[0].lines;
    RequestsOfFirst(url, lines, msgs);
    LinesOfFirst(lines, msgs, n);
    if |msgs| > 1 {
      RequestsOfTold(url', lines', msgs[1..], if n > 0 then n - 1 else 0);
    } else {
      assert Requests(Told(url', lines', msgs[1..])) == [];
    }
    if n == 0 {
      assert LinesOf(msgs[1..][..0]) == [];
      assert lines' + [] == lines';
    }
  }

  lemma {:induction false} LinesOfSnoc(msgs: seq<Message>, m: Message)
    ensures LinesOf(msgs + [m]) == LinesOf(msgs) + m.lines
  {
    if msgs == [] {
      assert msgs + [m] == [m];
      assert LinesOf([m]) == m.lines + LinesOf([]);
    } else {
      assert (msgs + [m])[1..] == msgs[1..] + [m];
      LinesOfSnoc(msgs[1..], m);
    }
  }

  /** On one connection, request `n` has the bindings of request `n - 1` unchanged and adds those of
      its own lines for new names; it has just its own bindings exactly when the earlier ones are
      among them. */
  lemma {:induction false} KeepAliveAccumulates<S>(app: App<S>, user: S, msgs: seq<Message>, n: nat)
    requires 0 < n < |msgs|
    ensures var c := Run(app, Fresh(user), Trace(msgs));
            var reqs := Requests(Notices(c.log));
            && Faithful(app, user, c) && |reqs| == |msgs|
            && BindsFirst(reqs[n].headers, LinesOf(msgs[..n + 1]))
            && reqs[n].headers == FieldMap(msgs[n].lines) + reqs[n - 1].headers
            && (reqs[n].headers == FieldMap(msgs[n].lines) <==>
                forall k :: k in reqs[n - 1].headers ==>
                  k in FieldMap(msgs[n].lines) && FieldMap(msgs[n].lines)[k] == reqs[n - 1].headers[k])
  {
    hide Run, Told, BindsFirst, Requests, FieldMap, Notices, Faithful;
    var reqs := Requests(Notices(Run(app, Fresh(user), Trace(msgs)).log));
    RequestsTold(app, user, msgs);
    RequestsOfTold("", [], msgs, n);
    RequestsOfTold("", [], msgs, n - 1);
    var all, before, own := LinesOf(msgs[..n + 1]), LinesOf(msgs[..n]), msgs[n].lines;
    assert [] + all == all && [] + before == before;
    assert msgs[..n + 1] == msgs[..n] + [msgs[n]];
    LinesOfSnoc(msgs[..n], msgs[n]);
    FieldMapAppend(before, own);
    FieldMapBindsFirst(all);
    OverrideIsOwn(FieldMap(own), FieldMap(before));
  }

  lemma {:induction false} OverrideIsOwn(own: StringMap, before: StringMap)
    ensures own + before == own <==> forall k :: k in before ==> k in own && own[k] == before[k]
  {
    if own + before == own {
      forall k | k in before ensures k in own && own[k] == before[k] {
        assert (own + before)[k] == before[k];
      }
    }
  }
}
