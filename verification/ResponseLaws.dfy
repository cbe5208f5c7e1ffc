/** What a history of operations does to the response, and which transport calls it makes, said without
    the operations' own definitions. */
module ResponseLaws {
  import opened Text
  import opened Numerals
  import opened HttpDate
  import opened HeaderBlock
  import opened Response
  import opened WriterLaws
  import Chunked

  // ---------------------------------------------------------------- the fields

  /** The value set last for a header. */
  function LastHeader(name: string, ops: seq<Op>): Option<string> {
    if ops == [] then None
    else
      var op := ops[|ops| - 1];
      if op.SetHeader? && op.name == name then Some(op.value) else LastHeader(name, ops[..|ops| - 1])
  }

  function LastStatus(ops: seq<Op>): Option<int> {
    if ops == [] then None
    else if ops[|ops| - 1].SetStatus? then Some(ops[|ops| - 1].code)
    else LastStatus(ops[..|ops| - 1])
  }

  function LastType(ops: seq<Op>): Option<string> {
    if ops == [] then None
    else if ops[|ops| - 1].SetContentType? then Some(ops[|ops| - 1].mime)
    else LastType(ops[..|ops| - 1])
  }

  function Or<T>(o: Option<T>, otherwise: T): T {
    if o.Some? then o.value else otherwise
  }

  function Lookup(m: StringMap, k: string): Option<string> {
    if k in m then Some(m[k]) else None
  }

  lemma {:induction false} Snoc(res: Res, ops: seq<Op>)
    requires ops != []
    ensures var n := |ops| - 1;
            ApplyAll(res, ops).0 == Apply(ApplyAll(res, ops[..n]).0, ops[n]).0
  {
    hide Apply;
    var init, last := ops[..|ops| - 1], ops[|ops| - 1];
    assert ops == init + [last];
    ApplyAllAppend(res, init, [last]);
    var r := ApplyAll(res, init).0;
    assert [last][1..] == [];
    assert ApplyAll(r, [last]).0 == Apply(r, last).0;
  }

  lemma {:induction false} StepFields(res: Res, op: Op)
    ensures var r := Apply(res, op).0;
            && (forall k :: Lookup(r.headers, k) ==
                            if op.SetHeader? && op.name == k then Some(op.value) else Lookup(res.headers, k))
            && r.statusCode == (if op.SetStatus? then op.code else res.statusCode)
            && r.contentType == (if op.SetContentType? then op.mime else res.contentType)
            && (r.wroteHeaders <==> res.wroteHeaders || Sends(op))
  {
    hide Payload;
  }

  lemma {:induction false} HeaderOfHistory(res: Res, ops: seq<Op>, k: string)
    ensures Lookup(ApplyAll(res, ops).0.headers, k) ==
            if LastHeader(k, ops).Some? then LastHeader(k, ops) else Lookup(res.headers, k)
    decreases |ops|
  {
    if ops != [] {
      hide ApplyAll, Apply, Lookup;
      var init, last := ops[..|ops| - 1], ops[|ops| - 1];
      HeaderOfHistory(res, init, k);
      Snoc(res, ops);
      StepFields(ApplyAll(res, init).0, last);
    }
  }

  lemma {:induction false} OthersOfHistory(res: Res, ops: seq<Op>)
    ensures var r := ApplyAll(res, ops).0;
            && r.statusCode == Or(LastStatus(ops), res.statusCode)
            && r.contentType == Or(LastType(ops), res.contentType)
    decreases |ops|
  {
    if ops != [] {
      hide ApplyAll, Apply, Lookup;
      var init, last := ops[..|ops| - 1], ops[|ops| - 1];
      OthersOfHistory(res, init);
      Snoc(res, ops);
      StepFields(ApplyAll(res, init).0, last);
    }
  }

  lemma {:induction false} SentOfHistory(res: Res, ops: seq<Op>)
    ensures ApplyAll(res, ops).0.wroteHeaders <==> res.wroteHeaders || FirstSend(ops) < |ops|
    decreases |ops|
  {
    hide Apply;
    if ops != [] {
      FramingOfState(res, ops[0]);
      SentOfHistory(Apply(res, ops[0]).0, ops[1..]);
    }
  }

  /** For every history: a header has the value set last for it, or the one it had; the status and the content
      type are those set last; all other operations leave them alone; and the headers count as sent
      exactly when they were before or something has been sent. */
  lemma {:induction false} FieldsOfHistory(res: Res, ops: seq<Op>)
    ensures var r := ApplyAll(res, ops).0;
            && (forall k :: Lookup(r.headers, k) ==
                            if LastHeader(k, ops).Some? then LastHeader(k, ops) else Lookup(res.headers, k))
            && r.statusCode == Or(LastStatus(ops), res.statusCode)
            && r.contentType == Or(LastType(ops), res.contentType)
            && (r.wroteHeaders <==> res.wroteHeaders || FirstSend(ops) < |ops|)
  {
    hide ApplyAll, LastHeader, LastStatus, LastType, Lookup;
    OthersOfHistory(res, ops);
    SentOfHistory(res, ops);
    forall k ensures Lookup(ApplyAll(res, ops).0.headers, k) ==
                     if LastHeader(k, ops).Some? then LastHeader(k, ops) else Lookup(res.headers, k) {
      HeaderOfHistory(res, ops, k);
    }
  }

  // ---------------------------------------------------------------- the head

  /** The texts that user code has set can stand in a header block. */
  predicate Clean(ops: seq<Op>) {
    forall op :: op in ops ==>
      && (op.SetHeader? ==> CleanName(op.name) && CleanValue(op.value))
      && (op.SetContentType? ==> CleanValue(op.mime))
  }

  lemma {:induction false} CleanSet(ops: seq<Op>, name: string)
    requires Clean(ops)
    ensures LastHeader(name, ops).Some? ==> CleanName(name) && CleanValue(LastHeader(name, ops).value)
    ensures LastType(ops).Some? ==> CleanValue(LastType(ops).value)
  {
    hide CleanName, CleanValue;
    if ops != [] {
      assert ops[|ops| - 1] in ops;
      CleanSet(ops[..|ops| - 1], name);
    }
  }

  /** The headers that a new response has without being asked. */
  function Default(name: string): Option<string> {
    if name == "Transfer-Encoding" then Some("chunked")
    else if name == "Connection" then Some("keep-alive")
    else None
  }

  lemma {:induction false} InitialFields()
    ensures INITIAL.statusCode == 200 && INITIAL.contentType == "text/plain" && !INITIAL.wroteHeaders
    ensures INITIAL.onData == Ignore && INITIAL.onEnd == Ignore
    ensures forall k :: Lookup(INITIAL.headers, k) == Default(k)
  {
  }

  /** The header lines of a history are those of the names set, each with its last value, and the default ones
      that were not set. */
  lemma {:induction false} HeaderLine(ops: seq<Op>, name: string, value: string)
    ensures var headers := ApplyAll(INITIAL, ops).0.headers;
            (name, value) in Reverse(Bindings(headers)) <==>
            Some(value) == if LastHeader(name, ops).Some? then LastHeader(name, ops) else Default(name)
  {
    hide ApplyAll, LastHeader, Bindings;
    var headers := ApplyAll(INITIAL, ops).0.headers;
    FieldsOfHistory(INITIAL, ops);
    InitialFields();
    BindingsOf(headers);
    assert (name, value) in Bindings(headers) <==> Lookup(headers, name) == Some(value);
  }

  lemma {:induction false} CleanHeaders(ops: seq<Op>)
    requires Clean(ops)
    ensures var r := ApplyAll(INITIAL, ops).0;
            CleanValue(r.contentType) && forall k :: k in r.headers ==> CleanName(k) && CleanValue(r.headers[k])
  {
    hide ApplyAll, LastHeader, LastType, Clean, CleanName, CleanValue;
    var r := ApplyAll(INITIAL, ops).0;
    FieldsOfHistory(INITIAL, ops);
    InitialIsClean();
    CleanSet(ops, "");
    forall k | k in r.headers ensures CleanName(k) && CleanValue(r.headers[k]) {
      CleanSet(ops, k);
      assert Lookup(r.headers, k) == Some(r.headers[k]);
      assert Lookup(INITIAL.headers, k).Some? ==> k in INITIAL.headers;
    }
  }

  /** The status, type and header fields that user code has set last, and the defaults for the rest; no
      field twice. */
  ghost predicate Announces(head: Head, before: seq<Op>, now: Gmtime) {
    && head.status == Or(LastStatus(before), 200)
    && head.reason == (if head.status == 200 then "OK" else "Unknown")
    && |head.fields| >= 2
    && head.fields[0] == ("Content-type", Or(LastType(before), "text/plain"))
    && head.fields[1] == ("Date", DateToStr(now).value)
    && (forall name, value :: (name, value) in head.fields[2..] <==>
          Some(value) == if LastHeader(name, before).Some? then LastHeader(name, before) else Default(name))
    && Differ(head.fields, 2)
  }

  predicate Differ(fields: seq<(string, string)>, from: nat) {
    forall i, j :: from <= i < j < |fields| ==> fields[i].0 != fields[j].0
  }

  lemma {:induction false} DifferBehind(a: (string, string), b: (string, string), lines: seq<(string, string)>)
    requires Differ(lines, 0)
    ensures ([a, b] + lines)[2..] == lines && Differ([a, b] + lines, 2)
  {
    var fields := [a, b] + lines;
    forall k, l | 2 <= k < l < |fields| ensures fields[k].0 != fields[l].0 {
      assert fields[k] == lines[k - 2] && fields[l] == lines[l - 2];
    }
  }

  lemma {:induction false} HeadAnnounces(before: seq<Op>, now: Gmtime)
    ensures var at := ApplyAll(INITIAL, before).0;
            Announces(Head(at.statusCode, StatusName(at.statusCode),
                           SentFields(at.contentType, DateToStr(now).value, at.headers)), before, now)
  {
    hide ApplyAll, LastHeader, LastType, LastStatus, Bindings, Reverse, Default, Differ;
    var at := ApplyAll(INITIAL, before).0;
    OthersOfHistory(INITIAL, before);
    InitialFields();
    var lines := Reverse(Bindings(at.headers));
    NamesDiffer(at.headers);
    DifferBehind(("Content-type", at.contentType), ("Date", DateToStr(now).value), lines);
    hide Lookup, InTables, FormatInt;
    forall name, value ensures (name, value) in lines <==>
      Some(value) == if LastHeader(name, before).Some? then LastHeader(name, before) else Default(name) {
      HeaderLine(before, name, value);
    }
  }

  /** What a client parses in front of the bodies of any history that sends something, in any framing: what
      user code has set last before it sent for the first time, and the defaults for the rest. */
  lemma {:induction false} HeadSent(ops: seq<Op>)
    requires FirstSend(ops) < |ops| && Clean(ops[..FirstSend(ops)])
    ensures var parsed := ParseHead(Wire(ApplyAll(INITIAL, ops).1));
            && parsed.Some?
            && Announces(parsed.value.0, ops[..FirstSend(ops)], ops[FirstSend(ops)].now)
  {
    hide ApplyAll, Clean, CleanName, CleanValue, ParseHead, Wire, HeadOf, Bodies, SentFields, StatusName, DateToStr,
         FirstSend, Announces;
    var i := FirstSend(ops);
    var at := AtFirstSend(INITIAL, ops);
    WriterRefinement(INITIAL, ops);
    CleanHeaders(ops[..i]);
    HeadRead(at, ops[i].now, Bodies(IsChunked(at.headers), ops[i..]));
    HeadAnnounces(ops[..i], ops[i].now);
  }

  lemma {:induction false} ReverseAt<T(!new)>(s: seq<T>, i: nat)
    requires i < |s|
    ensures Reverse(s)[i] == s[|s| - 1 - i]
  {
    if i < |s| - 1 {
      ReverseAt(s[1..], i);
    }
  }

  lemma {:induction false} NamesDiffer(m: StringMap)
    ensures Differ(Reverse(Bindings(m)), 0)
  {
    var s := Bindings(m);
    BindingsOf(m);
    hide Bindings, Reverse;
    forall i, j | 0 <= i < j < |s| ensures Reverse(s)[i].0 != Reverse(s)[j].0 {
      ReverseAt(s, i);
      ReverseAt(s, j);
      assert Less(s[|s| - 1 - j].0, s[|s| - 1 - i].0);
      LessTotal(s[|s| - 1 - i].0, s[|s| - 1 - j].0);
    }
  }

  lemma {:induction false} LineTexts()
    ensures Line("Transfer-Encoding", "chunked") == "Transfer-Encoding: chunked\n"
    ensures Line("Connection", "keep-alive") == "Connection: keep-alive\n"
  {
  }

  lemma {:induction false} DefaultLines()
    ensures RenderHeaders(INITIAL.headers) == "Transfer-Encoding: chunked\n" + ("Connection: keep-alive\n" + "\n")
  {
    var c: (string, string), e: (string, string) := ("Connection", "keep-alive"), ("Transfer-Encoding", "chunked");
    var one, two := [c], [e, c];
    FoldLines(INITIAL.headers, "\n");
    DefaultFields();
    hide Bindings, Reverse, Fold;
    assert two[1..] == one && one[1..] == [];
    assert Lines(one) == Line(c.0, c.1) + Lines([]);
    assert Lines(two) == Line(e.0, e.1) + Lines(one);
    LineTexts();
    hide Line, Lines;
    Associative(Line(e.0, e.1), Line(c.0, c.1), "\n");
    assert Line(c.0, c.1) + "" == Line(c.0, c.1);
  }

  /** The text of a head with the default headers. */
  lemma {:induction false} InitialText(status: int, contentType: string, date: string)
    ensures Block(status, contentType, date, INITIAL.headers) ==
            "HTTP/1.1 " + FormatInt(status) + " " + (if status == 200 then "OK" else "Unknown") + "\n" +
            ("Content-type" + ": " + contentType + "\n" +
             ("Date" + ": " + date + "\n" +
              ("Transfer-Encoding: chunked\n" + ("Connection: keep-alive\n" + "\n"))))
  {
    hide FormatInt, RenderHeaders;
    DefaultLines();
  }

  // ---------------------------------------------------------------- the calls

  /** The calls of a history after the headers: each message in the framing in force then, and for every end
      a shutdown right after its empty message. */
  function Transcript(chunked: bool, ops: seq<Op>): seq<Call>
    decreases |ops|
  {
    if ops == [] then []
    else
      match ops[0]
      case Write(msg, _) =>
        [UvWrite(if chunked then Chunked.Chunk(msg) else msg)] + Transcript(chunked, ops[1..])
      case EndConnection(_) =>
        [UvWrite(if chunked then Chunked.Chunk("") else ""), UvShutdown] + Transcript(chunked, ops[1..])
      case SetHeader(name, value) =>
        Transcript(if name == "Transfer-Encoding" then value == "chunked" else chunked, ops[1..])
      case _ => Transcript(chunked, ops[1..])
  }

  /** The first write carries the header block, too. */
  function WithHead(head: string, calls: seq<Call>): seq<Call> {
    if calls != [] && calls[0].UvWrite? then [UvWrite(head + calls[0].bytes)] + calls[1..] else calls
  }

  lemma {:induction false} CallsAfterHeaders(res: Res, ops: seq<Op>)
    requires res.wroteHeaders
    ensures ApplyAll(res, ops).1 == Transcript(IsChunked(res.headers), ops)
    decreases |ops|
  {
    hide HeadOf, Chunked.Chunk;
    if ops != [] {
      CallsAfterHeaders(Apply(res, ops[0]).0, ops[1..]);
      FramingOfState(res, ops[0]);
      assert forall s: string :: "" + s == s;
    }
  }

  lemma {:induction false} FirstCalls(res: Res, op: Op, rest: seq<Op>)
    requires !res.wroteHeaders && Sends(op)
    ensures Apply(res, op).1 + Transcript(IsChunked(res.headers), rest) ==
            WithHead(HeadOf(res, op.now), Transcript(IsChunked(res.headers), [op] + rest))
  {
    hide HeadOf, Chunked.Chunk;
    assert ([op] + rest)[1..] == rest;
  }

  lemma {:induction false} LaterCalls(res: Res, op: Op, rest: seq<Op>)
    requires !Sends(op)
    ensures Apply(res, op).1 == [] && Apply(res, op).0.wroteHeaders == res.wroteHeaders
    ensures Transcript(IsChunked(res.headers), [op] + rest) == Transcript(IsChunked(Apply(res, op).0.headers), rest)
  {
    assert ([op] + rest)[1..] == rest;
    FramingOfState(res, op);
  }

  /** For every history of a new response, in any framing: exactly these transport calls, in this order, each
      write with these bytes. */
  lemma {:induction false} CallsMade(res: Res, ops: seq<Op>)
    requires !res.wroteHeaders
    ensures ApplyAll(res, ops).1 ==
            if FirstSend(ops) == |ops| then []
            else WithHead(HeadOf(AtFirstSend(res, ops), ops[FirstSend(ops)].now),
                          Transcript(IsChunked(res.headers), ops))
    decreases |ops|
  {
    if ops != [] {
      CallsStep(res, ops);
      hide HeadOf, Chunked.Chunk, ApplyAll, Apply, Transcript, WithHead, IsChunked, AtFirstSend;
      var op, rest := ops[0], ops[1..];
      var r := Apply(res, op).0;
      assert ops == [op] + rest;
      FramingOfState(res, op);
      if Sends(op) {
        assert !SetsFraming(op);
        CallsAfterHeaders(r, rest);
        StateAtOnce(res, ops);
        FirstCalls(res, op, rest);
      } else {
        LaterCalls(res, op, rest);
        CallsMade(r, rest);
        StateLater(res, ops);
        assert [] + ApplyAll(r, rest).1 == ApplyAll(r, rest).1;
      }
    }
  }

  lemma {:induction false} CallsStep(res: Res, ops: seq<Op>)
    requires ops != []
    ensures var (r, c) := Apply(res, ops[0]); ApplyAll(res, ops).1 == c + ApplyAll(r, ops[1..]).1
  {
    hide Apply;
  }

  lemma {:induction false} StateAtOnce(res: Res, ops: seq<Op>)
    requires ops != [] && Sends(ops[0])
    ensures FirstSend(ops) == 0 && AtFirstSend(res, ops) == res
  {
    assert ops[..0] == [];
  }

  lemma {:induction false} StateLater(res: Res, ops: seq<Op>)
    requires ops != [] && !Sends(ops[0])
    ensures FirstSend(ops) == 1 + FirstSend(ops[1..])
    ensures AtFirstSend(res, ops) == AtFirstSend(Apply(res, ops[0]).0, ops[1..])
  {
    hide Apply;
    var i := FirstSend(ops[1..]);
    assert ops[..i + 1][0] == ops[0] && ops[..i + 1][1..] == ops[1..][..i];
  }

  /** A shutdown comes directly after a write of these bytes. */
  predicate After(calls: seq<Call>, i: nat, bytes: string)
    requires i < |calls|
  {
    && i > 0 && calls[i - 1].UvWrite? && |bytes| <= |calls[i - 1].bytes|
    && calls[i - 1].bytes[|calls[i - 1].bytes| - |bytes|..] == bytes
  }

  lemma {:induction false} EndBytes(res: Res, op: Op, i: nat)
    requires i < |Apply(res, op).1| && Apply(res, op).1[i] == UvShutdown
    ensures op.EndConnection? && After(Apply(res, op).1, i, Frame(IsChunked(res.headers), ""))
    ensures i == 1 && |Apply(res, op).1| == 2
  {
    hide HeadOf, Frame;
  }

  lemma {:induction false} AfterInRest(c: seq<Call>, rest: seq<Call>, i: nat, bytes: string)
    requires |c| <= i < |c + rest| && After(rest, i - |c|, bytes)
    ensures After(c + rest, i, bytes)
  {
    assert (c + rest)[i - 1] == rest[i - |c| - 1];
  }

  lemma {:induction false} AfterInFirst(c: seq<Call>, rest: seq<Call>, i: nat, bytes: string)
    requires i < |c| && After(c, i, bytes)
    ensures After(c + rest, i, "")
  {
  }

  /** In any framing, every end shuts the stream down once, directly after a write, and nothing else does. */
  lemma {:induction false} EveryEndShutsDown(res: Res, ops: seq<Op>)
    ensures var calls := ApplyAll(res, ops).1;
            && Shutdowns(calls) == Endings(ops)
            && forall i :: 0 <= i < |calls| && calls[i] == UvShutdown ==> After(calls, i, "")
    decreases |ops|
  {
    if ops != [] {
      CallsStep(res, ops);
      hide Apply, ApplyAll, HeadOf, Payload, Frame, After;
      var (r, c) := Apply(res, ops[0]);
      var rest := ApplyAll(r, ops[1..]).1;
      EveryEndShutsDown(r, ops[1..]);
      ShutdownsAppend(c, rest);
      OneEnding(res, ops[0]);
      hide Shutdowns;
      forall i | 0 <= i < |c + rest| && (c + rest)[i] == UvShutdown ensures After(c + rest, i, "") {
        if i < |c| {
          EndBytes(res, ops[0], i);
          AfterInFirst(c, rest, i, Frame(IsChunked(res.headers), ""));
        } else {
          assert rest[i - |c|] == UvShutdown;
          AfterInRest(c, rest, i, "");
        }
      }
    }
  }

  lemma {:induction false} OneEnding(res: Res, op: Op)
    ensures Shutdowns(Apply(res, op).1) == if op.EndConnection? then 1 else 0
  {
    hide HeadOf, Frame;
    if Sends(op) {
      var bytes := Payload(res, MessageOf(op), op.now);
      assert [UvWrite(bytes)][1..] == [] && [UvWrite(bytes), UvShutdown][1..] == [UvShutdown];
      assert Shutdowns([UvShutdown]) == 1 + Shutdowns([UvShutdown][1..]);
    }
  }
}
