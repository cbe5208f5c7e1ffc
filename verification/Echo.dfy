/** Request parsing and response writing put together: a handler that writes every body fragment
    it gets and ends the connection with the message. */
module Echo {
  import opened Text
  import opened HttpDate
  import opened HeaderBlock
  import opened Response
  import opened RequestParser
  import opened RequestLaws
  import Chunked
  import WriterLaws

  /** The user state counts the readings of the clock, which is arbitrary. */
  function EchoApp(clock: int -> Gmtime): App<int> {
    App((n: int, _: Req) => (n, [On(Data(Closure(0))), On(End(Closure(1)))]),
        (n: int, _: nat, d: string) => (n + 1, [Write(d, clock(n))]),
        (n: int, _: nat) => (n + 1, [EndConnection(clock(n))]))
  }

  function Reply(msgs: seq<Message>): seq<string> {
    if msgs == [] then [] else msgs[0].body + [""] + Reply(msgs[1..])
  }

  /** Neither the status, nor the content type, nor a header has been changed. */
  predicate LeavesHead(ops: seq<Op>) {
    forall op :: op in ops ==> op.Write? || op.EndConnection? || op.On?
  }

  lemma {:induction false} HeadLeft(res: Res, ops: seq<Op>)
    requires LeavesHead(ops)
    ensures var r := ApplyAll(res, ops).0;
            r.statusCode == res.statusCode && r.contentType == res.contentType && r.headers == res.headers
    decreases |ops|
  {
    if ops != [] {
      HeadLeft(Apply(res, ops[0]).0, ops[1..]);
    }
  }

  lemma {:induction false} HeadLeftKeepsFraming(ops: seq<Op>)
    requires LeavesHead(ops)
    ensures WriterLaws.KeepsFraming(true, true, ops)
  {
    if ops != [] {
      assert ops[0] in ops;
      HeadLeftKeepsFraming(ops[1..]);
    }
  }

  /** The connection has sent `sent`, its handlers are registered, and nothing else was changed. */
  predicate Echoing(c: Conn<int>, sent: seq<string>) {
    && LeavesHead(c.ops) && WriterLaws.Messages(c.ops) == sent
    && c.res.onData == Closure(0) && c.res.onEnd == Closure(1)
  }

  lemma {:induction false} EchoSend(c: Conn<int>, sent: seq<string>, d: Delivery, user: int, op: Op)
    requires Echoing(c, sent) && WriterLaws.Sends(op)
    ensures Echoing(RunOps(c, d, (user, [op])), sent + [WriterLaws.MessageOf(op)])
  {
    assert ApplyAll(c.res, [op]).0 == Apply(c.res, op).0;
    WriterLaws.MessagesAppend(c.ops, [op]);
    WriterLaws.OneMessage(op);
  }

  lemma {:induction false} DataStep<S>(app: App<S>, c: Conn<S>, text: string)
    requires c.res.onData.Closure?
    ensures BodyStep(app, c, text) ==
            RunOps(c, ToData(c.res.onData, text), app.data(c.user, c.res.onData.id, text))
  {
    hide RunOps;
  }

  lemma {:induction false} EndStep<S>(app: App<S>, c: Conn<S>)
    requires c.res.onEnd.Closure?
    ensures EventStep(app, c, MessageComplete) ==
            RunOps(c, ToEnd(c.res.onEnd), app.end(c.user, c.res.onEnd.id))
  {
    hide RunOps;
  }

  lemma {:induction false} EchoFragment(clock: int -> Gmtime, c: Conn<int>, sent: seq<string>, text: string)
    requires Echoing(c, sent)
    ensures Echoing(BodyStep(EchoApp(clock), c, text), sent + [text])
  {
    DataStep(EchoApp(clock), c, text);
    EchoSend(c, sent, ToData(Closure(0), text), c.user + 1, Write(text, clock(c.user)));
  }

  lemma {:induction false} EchoEnd(clock: int -> Gmtime, c: Conn<int>, sent: seq<string>)
    requires Echoing(c, sent)
    ensures Echoing(EventStep(EchoApp(clock), c, MessageComplete), sent + [""])
  {
    EndStep(EchoApp(clock), c);
    EchoSend(c, sent, ToEnd(Closure(1)), c.user + 1, EndConnection(clock(c.user)));
  }

  /** The body callbacks alone. */
  function RunBody<S>(app: App<S>, c: Conn<S>, body: seq<string>): Conn<S>
    decreases |body|
  {
    if body == [] then c else RunBody(app, BodyStep(app, c, body[0]), body[1..])
  }

  lemma {:induction false} RunBodyEvents<S>(app: App<S>, c: Conn<S>, body: seq<string>)
    ensures Run(app, c, BodyEvents(body)) == RunBody(app, c, body)
    decreases |body|
  {
    if body != [] {
      RunCons(app, c, Body(body[0]), BodyEvents(body[1..]));
      RunBodyEvents(app, BodyStep(app, c, body[0]), body[1..]);
    }
  }

  /** An invariant of the state and the messages sent, kept by each body callback. */
  lemma {:induction false} BodyInvariant<S(!new)>(app: App<S>, c: Conn<S>, sent: seq<string>, body: seq<string>,
                                                  inv: (Conn<S>, seq<string>) -> bool)
    requires inv(c, sent)
    requires forall c, sent, text :: inv(c, sent) ==> inv(BodyStep(app, c, text), sent + [text])
    ensures inv(RunBody(app, c, body), sent + body)
    decreases |body|
  {
    if body == [] {
      assert sent + body == sent;
    } else {
      BodyInvariant(app, BodyStep(app, c, body[0]), sent + [body[0]], body[1..], inv);
      assert sent + [body[0]] + body[1..] == sent + body;
    }
  }

  lemma {:induction false} EchoFragments(clock: int -> Gmtime, c: Conn<int>, sent: seq<string>, body: seq<string>)
    requires Echoing(c, sent)
    ensures Echoing(RunBody(EchoApp(clock), c, body), sent + body)
  {
    hide BodyStep;
    var app := EchoApp(clock);
    forall c, sent, text | Echoing(c, sent) ensures Echoing(BodyStep(app, c, text), sent + [text]) {
      EchoFragment(clock, c, sent, text);
    }
    BodyInvariant(app, c, sent, body, Echoing);
  }

  lemma {:induction false} EchoBody(clock: int -> Gmtime, c: Conn<int>, sent: seq<string>, body: seq<string>)
    requires Echoing(c, sent)
    ensures Echoing(Run(EchoApp(clock), c, BodyEvents(body) + [MessageComplete]), sent + (body + [""]))
  {
    hide EventStep, RunBody, Echoing, BodyEvents, EchoApp;
    var app := EchoApp(clock);
    var c1 := Run(app, c, BodyEvents(body));
    RunAppend(app, c, BodyEvents(body), [MessageComplete]);
    RunBodyEvents(app, c, body);
    EchoFragments(clock, c, sent, body);
    EchoEnd(clock, c1, sent + body);
    RunCons(app, c1, MessageComplete, []);
    assert [MessageComplete] + [] == [MessageComplete];
    Associative(sent, body, [""]);
  }

  /** A request registers the handlers again. */
  lemma {:induction false} EchoRequest(clock: int -> Gmtime, c: Conn<int>, sent: seq<string>)
    requires LeavesHead(c.ops) && WriterLaws.Messages(c.ops) == sent && |c.fields| == |c.values|
    ensures Echoing(EventStep(EchoApp(clock), c, HeadersComplete), sent)
  {
    RequestStep(EchoApp(clock), c);
    var req := Req(c.url, FoldLeft2(map[], c.fields, c.values).value);
    EchoRegister(c, sent, ToRequest(req), c.user);
  }

  lemma {:induction false} EchoRegister(c: Conn<int>, sent: seq<string>, d: Delivery, user: int)
    requires LeavesHead(c.ops) && WriterLaws.Messages(c.ops) == sent
    ensures Echoing(RunOps(c, d, (user, [On(Data(Closure(0))), On(End(Closure(1)))])), sent)
  {
    var data, end := On(Data(Closure(0))), On(End(Closure(1)));
    var ops := [data, end];
    var r := Apply(c.res, data).0;
    assert ops[1..] == [end];
    assert ApplyAll(r, [end]).0 == Apply(r, end).0;
    assert ApplyAll(c.res, ops).0 == Apply(r, end).0;
    WriterLaws.MessagesAppend(c.ops, ops);
    WriterLaws.MessagesAppend([data], [end]);
    WriterLaws.OneMessage(data);
    WriterLaws.OneMessage(end);
    assert [data] + [end] == ops;
    assert sent + ([] + []) == sent;
  }

  lemma {:induction false} EchoMessage(clock: int -> Gmtime, c: Conn<int>, sent: seq<string>,
                                       lines: seq<(string, string)>, m: Message)
    requires LeavesHead(c.ops) && WriterLaws.Messages(c.ops) == sent
    requires c.fields == Fields(lines) && c.values == Values(lines)
    ensures var c' := Run(EchoApp(clock), c, MessageEvents(m));
            && Echoing(c', sent + (m.body + [""]))
            && c'.fields == Fields(lines + m.lines) && c'.values == Values(lines + m.lines)
  {
    hide EventStep, LeavesHead, Collect, Due;
    var app := EchoApp(clock);
    var begin := [MessageBegin] + (UrlEvents(m.urls) + LineEvents(m.lines));
    var tail := BodyEvents(m.body) + [MessageComplete];
    assert MessageEvents(m) == begin + ([HeadersComplete] + tail);
    RunAppend(app, c, begin, [HeadersComplete] + tail);
    Begun(app, c, lines, m);
    var c1 := Run(app, c, begin);
    EchoRequest(clock, c1, sent);
    RunCons(app, c1, HeadersComplete, tail);
    EchoBody(clock, EventStep(app, c1, HeadersComplete), sent, m.body);
    RunDelivers(app, c, MessageEvents(m));
    MessageDue(c.url, lines, m);
  }

  lemma {:induction false} EchoTrace(clock: int -> Gmtime, c: Conn<int>, sent: seq<string>,
                                     lines: seq<(string, string)>, msgs: seq<Message>)
    requires LeavesHead(c.ops) && WriterLaws.Messages(c.ops) == sent
    requires c.fields == Fields(lines) && c.values == Values(lines)
    ensures var c' := Run(EchoApp(clock), c, Trace(msgs));
            LeavesHead(c'.ops) && WriterLaws.Messages(c'.ops) == sent + Reply(msgs)
    decreases |msgs|
  {
    hide EventStep, MessageEvents, LeavesHead, Fields, Values;
    if msgs == [] {
      assert sent + [] == sent;
    } else {
      var app := EchoApp(clock);
      var m := msgs[0];
      RunAppend(app, c, MessageEvents(m), Trace(msgs[1..]));
      EchoMessage(clock, c, sent, lines, m);
      EchoTrace(clock, Run(app, c, MessageEvents(m)), sent + (m.body + [""]), lines + m.lines, msgs[1..]);
      assert sent + (m.body + [""]) + Reply(msgs[1..]) == sent + Reply(msgs);
    }
  }

  /** Sending without changing the response. */
  lemma {:induction false} UnchangedHead(ops: seq<Op>)
    requires LeavesHead(ops) && WriterLaws.Messages(ops) != []
    ensures var i := WriterLaws.FirstSend(ops);
            var at := WriterLaws.AtFirstSend(INITIAL, ops);
            && i < |ops| && WriterLaws.KeepsFraming(true, true, ops[i..])
            && at.statusCode == 200 && at.contentType == INITIAL.contentType && at.headers == INITIAL.headers
  {
    hide Apply, ApplyAll;
    WriterLaws.SendExists(ops);
    var i := WriterLaws.FirstSend(ops);
    HeadLeft(INITIAL, ops[..i]);
    HeadLeftKeepsFraming(ops[i..]);
  }

  /** A client parses a header block with the initial fields, and then these bytes are left. */
  predicate InitialHead(wire: string, rest: string) {
    && ParseHead(wire).Some?
    && var (head, body) := ParseHead(wire).value;
       && head.status == 200 && head.reason == "OK" && |head.fields| == 4
       && head.fields[0] == ("Content-type", "text/plain") && head.fields[1].0 == "Date"
       && head.fields[2..] == [("Transfer-Encoding", "chunked"), ("Connection", "keep-alive")]
       && body == rest
  }

  lemma {:induction false} ReadsInitialHead(ops: seq<Op>, tail: string)
    requires LeavesHead(ops) && WriterLaws.Messages(ops) != []
    ensures InitialHead(Wire(ApplyAll(INITIAL, ops).1) + tail, Chunked.Encode(WriterLaws.Messages(ops)) + tail)
  {
    hide Apply, ApplyAll, LeavesHead, WriterLaws.KeepsFraming, WriterLaws.AtFirstSend, ParseHead, Chunked.Encode,
         Chunked.Decode, CleanName, CleanValue, Bindings, Reverse, Chunked.FirstEmpty, WriterLaws.Messages,
         WriterLaws.FirstSend, Wire, InTables, Format;
    UnchangedHead(ops);
    InitialIsClean();
    WriterLaws.ClientReads(INITIAL, ops, tail);
    DefaultFields();
    var date := DateToStr(ops[WriterLaws.FirstSend(ops)].now).value;
    assert SentFields(INITIAL.contentType, date, INITIAL.headers)[2..] == Reverse(Bindings(INITIAL.headers));
  }

  /** For any messages on one connection, however their bodies are cut into fragments: one header
      block, then the fragments of every message with its terminator, and nothing else. */
  lemma {:induction false} EchoOutput(clock: int -> Gmtime, msgs: seq<Message>)
    requires msgs != []
    ensures InitialHead(Wire(Run(EchoApp(clock), Fresh(0), Trace(msgs)).calls), Chunked.Encode(Reply(msgs)))
  {
    hide Run, InitialHead, ApplyAll, LeavesHead, WriterLaws.Messages, Trace;
    NothingSentYet(0);
    EchoTrace(clock, Fresh(0), [], [], msgs);
    assert [] + Reply(msgs) == Reply(msgs);
    ExactlyOnceInOrder(EchoApp(clock), 0, Trace(msgs));
    var c := Run(EchoApp(clock), Fresh(0), Trace(msgs));
    ReadsInitialHead(c.ops, "");
    assert Wire(c.calls) + "" == Wire(c.calls);
    assert Chunked.Encode(Reply(msgs)) + "" == Chunked.Encode(Reply(msgs));
  }

  /** The bytes handed to the transport for the first message, whatever bytes follow them. */
  lemma {:induction false} FirstReply(clock: int -> Gmtime, m: Message, tail: string)
    ensures var c := Run(EchoApp(clock), Fresh(0), MessageEvents(m));
            && InitialHead(Wire(c.calls) + tail, Chunked.Encode(m.body + [""]) + tail)
            && c.calls == ApplyAll(INITIAL, c.ops).1 && WriterLaws.Messages(c.ops) == m.body + [""]
  {
    hide Run, InitialHead, ApplyAll, LeavesHead, WriterLaws.Messages, MessageEvents;
    NothingSentYet(0);
    EchoMessage(clock, Fresh(0), [], [], m);
    assert [] + (m.body + [""]) == m.body + [""];
    ExactlyOnceInOrder(EchoApp(clock), 0, MessageEvents(m));
    ReadsInitialHead(Run(EchoApp(clock), Fresh(0), MessageEvents(m)).ops, tail);
  }

  lemma {:induction false} NothingSentYet<S>(user: S)
    ensures LeavesHead(Fresh(user).ops) && WriterLaws.Messages(Fresh(user).ops) == []
  {
  }

  /** The echo theorem: when no fragment is empty, a client decodes the first response body into
      exactly the fragments of the first request body, so into that body however it was cut; the replies
      to the later messages are handed to the transport behind it. */
  lemma {:induction false} EchoRoundTrip(clock: int -> Gmtime, m: Message, later: seq<Message>)
    requires "" !in m.body
    ensures var wire := Wire(Run(EchoApp(clock), Fresh(0), Trace([m] + later)).calls);
            && ParseHead(wire).Some?
            && Chunked.Decode(ParseHead(wire).value.1) == Chunked.Complete(m.body, Chunked.Encode(Reply(later)))
  {
    hide Run, ParseHead, Chunked.Encode, Chunked.Decode;
    var msgs := [m] + later;
    EchoOutput(clock, msgs);
    assert msgs[1..] == later;
    assert Reply(msgs) == m.body + [""] + Reply(later);
    Chunked.FirstEmptyAppend(m.body, Reply(later));
    WriterLaws.DecodeAll(Reply(msgs));
    assert Reply(msgs)[..|m.body|] == m.body && Reply(msgs)[|m.body| + 1..] == Reply(later);
  }

  /** Two ways of cutting one body get replies that decode to the same text. */
  lemma {:induction false} EchoIgnoresFragments(clock: int -> Gmtime, m: Message, m': Message)
    requires "" !in m.body && "" !in m'.body && Concat(m.body) == Concat(m'.body)
    ensures var wire := Wire(Run(EchoApp(clock), Fresh(0), Trace([m])).calls);
            var wire' := Wire(Run(EchoApp(clock), Fresh(0), Trace([m'])).calls);
            && ParseHead(wire).Some? && ParseHead(wire').Some?
            && Concat(Chunked.Decode(ParseHead(wire).value.1).chunks) == Concat(m.body)
            && Concat(Chunked.Decode(ParseHead(wire').value.1).chunks) == Concat(m.body)
  {
    EchoRoundTrip(clock, m, []);
    EchoRoundTrip(clock, m', []);
    assert [m] + [] == [m] && [m'] + [] == [m'];
  }
}
