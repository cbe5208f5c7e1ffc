/** What a connection sends, as a function of everything user code did to its response. */
module WriterLaws {
  import opened Text
  import opened HttpDate
  import opened HeaderBlock
  import opened Response
  import opened Chunked

  predicate Sends(op: Op) { op.Write? || op.EndConnection? }

  /** The message an operation sends; ending the connection sends an empty one. */
  function MessageOf(op: Op): string
    requires Sends(op)
  {
    if op.Write? then op.msg else ""
  }

  function Messages(ops: seq<Op>): seq<string> {
    if ops == [] then []
    else if Sends(ops[0]) then [MessageOf(ops[0])] + Messages(ops[1..])
    else Messages(ops[1..])
  }

  /** The position of the first operation that sends, or the number of operations. */
  function FirstSend(ops: seq<Op>): (i: nat)
    ensures i <= |ops|
    ensures forall j :: 0 <= j < i ==> !Sends(ops[j])
    ensures i < |ops| ==> Sends(ops[i])
  {
    if ops == [] || Sends(ops[0]) then 0 else 1 + FirstSend(ops[1..])
  }

  predicate SetsFraming(op: Op) { op.SetHeader? && op.name == "Transfer-Encoding" }

  /** The framing in force after an operation: only `Transfer-Encoding` matters. */
  function FramingAfter(chunked: bool, op: Op): bool {
    if SetsFraming(op) then op.value == "chunked" else chunked
  }

  /** The framed messages of a history, from the framing in force when it starts. */
  function Bodies(chunked: bool, ops: seq<Op>): string
    decreases |ops|
  {
    if ops == [] then ""
    else
      var rest := Bodies(FramingAfter(chunked, ops[0]), ops[1..]);
      if Sends(ops[0]) then Frame(chunked, MessageOf(ops[0])) + rest else rest
  }

  lemma {:induction false} MessagesAppend(a: seq<Op>, b: seq<Op>)
    ensures Messages(a + b) == Messages(a) + Messages(b)
  {
    if a == [] {
      assert a + b == b;
    } else {
      assert (a + b)[1..] == a[1..] + b;
      MessagesAppend(a[1..], b);
    }
  }

  lemma {:induction false} OneMessage(op: Op)
    ensures Messages([op]) == if Sends(op) then [MessageOf(op)] else []
  {
    assert Messages([op][1..]) == [];
  }

  lemma {:induction false} SendExists(ops: seq<Op>)
    ensures FirstSend(ops) < |ops| <==> Messages(ops) != []
  {
    if ops != [] {
      SendExists(ops[1..]);
    }
  }

  /** The state in which the first message is sent. */
  function AtFirstSend(res: Res, ops: seq<Op>): Res {
    ApplyAll(res, ops[..FirstSend(ops)]).0
  }

  /** One header block from the state at the first message, then the framed messages. */
  function Output(res: Res, ops: seq<Op>): string {
    var i := FirstSend(ops);
    if i == |ops| then ""
    else
      var at := AtFirstSend(res, ops);
      HeadOf(at, ops[i].now) + Bodies(IsChunked(at.headers), ops[i..])
  }

  // ---------------------------------------------------------------- refinement

  /** The bytes of one operation. */
  lemma {:induction false} SentBytes(res: Res, op: Op)
    ensures Wire(Apply(res, op).1) == if Sends(op) then Payload(res, MessageOf(op), op.now) else ""
  {
    hide HeadOf, Frame, Payload;
    if Sends(op) {
      var bytes := UvWrite(Payload(res, MessageOf(op), op.now));
      assert Wire([bytes]) == bytes.bytes + Wire([]);
      assert [bytes, UvShutdown][1..] == [UvShutdown];
      assert Wire([UvShutdown]) == Wire([]);
    }
  }

  lemma {:induction false} SentAfterHeaders(res: Res, op: Op)
    requires res.wroteHeaders
    ensures Wire(Apply(res, op).1) == if Sends(op) then Frame(IsChunked(res.headers), MessageOf(op)) else ""
  {
    hide Apply, Frame, HeadOf;
    SentBytes(res, op);
  }

  lemma {:induction false} FramingOfState(res: Res, op: Op)
    ensures IsChunked(Apply(res, op).0.headers) == FramingAfter(IsChunked(res.headers), op)
    ensures Apply(res, op).0.wroteHeaders == (res.wroteHeaders || Sends(op))
  {
  }

  lemma {:induction false} WireStep(res: Res, op: Op, ops: seq<Op>)
    ensures var (r, c) := Apply(res, op);
            Wire(ApplyAll(res, [op] + ops).1) == Wire(c) + Wire(ApplyAll(r, ops).1)
  {
    hide Apply;
    assert ([op] + ops)[1..] == ops;
    WireAppend(Apply(res, op).1, ApplyAll(Apply(res, op).0, ops).1);
  }

  lemma {:induction false} AfterHeaders(res: Res, ops: seq<Op>)
    requires res.wroteHeaders
    ensures Wire(ApplyAll(res, ops).1) == Bodies(IsChunked(res.headers), ops)
    decreases |ops|
  {
    hide Apply, HeadOf, Frame, Payload;
    if ops != [] {
      var op, rest := ops[0], ops[1..];
      assert ops == [op] + rest;
      WireStep(res, op, rest);
      SentAfterHeaders(res, op);
      FramingOfState(res, op);
      AfterHeaders(Apply(res, op).0, rest);
    }
  }

  /** The total output of any history is the pure function of it above. */
  lemma {:induction false} WriterRefinement(res: Res, ops: seq<Op>)
    requires !res.wroteHeaders
    ensures Wire(ApplyAll(res, ops).1) == Output(res, ops)
    decreases |ops|
  {
    hide Apply, HeadOf, Frame;
    if ops != [] {
      var op, rest := ops[0], ops[1..];
      assert ops == [op] + rest;
      WireStep(res, op, rest);
      SentBytes(res, op);
      FramingOfState(res, op);
      if Sends(op) {
        AfterHeaders(Apply(res, op).0, rest);
        FirstSendNow(res, ops);
      } else {
        WriterRefinement(Apply(res, op).0, rest);
        FirstSendLater(res, op, rest);
      }
    }
  }

  lemma {:induction false} FirstSendNow(res: Res, ops: seq<Op>)
    requires ops != [] && Sends(ops[0])
    ensures Output(res, ops) ==
            HeadOf(res, ops[0].now) + (Frame(IsChunked(res.headers), MessageOf(ops[0])) +
            Bodies(FramingAfter(IsChunked(res.headers), ops[0]), ops[1..]))
  {
    hide HeadOf, Frame;
    assert ops[..0] == [] && ops[0..] == ops;
  }

  lemma {:induction false} FirstSendLater(res: Res, op: Op, rest: seq<Op>)
    requires !Sends(op)
    ensures Output(res, [op] + rest) == Output(Apply(res, op).0, rest)
  {
    hide Apply, HeadOf, Bodies;
    var ops := [op] + rest;
    var i := FirstSend(rest);
    assert ops[1..] == rest;
    assert FirstSend(ops) == i + 1;
    assert ops[..i + 1] == [op] + rest[..i];
    assert ops[..i + 1][1..] == rest[..i];
    assert ops[i + 1..] == rest[i..];
    assert AtFirstSend(res, ops) == AtFirstSend(Apply(res, op).0, rest);
  }

  /** What can be seen of an operation after the headers have been sent: a text, or a framing. */
  datatype Mark = SentText(msg: string) | SetFraming(chunked: bool)

  /** What is left of a history then: no status, content type, listener, other header or reading of the
      clock, and of `Transfer-Encoding` only whether it is "chunked". */
  function Visible(ops: seq<Op>): seq<Mark> {
    if ops == [] then []
    else if Sends(ops[0]) then [SentText(MessageOf(ops[0]))] + Visible(ops[1..])
    else if SetsFraming(ops[0]) then [SetFraming(ops[0].value == "chunked")] + Visible(ops[1..])
    else Visible(ops[1..])
  }

  /** The bytes of the marks. */
  function MarkedBytes(chunked: bool, marks: seq<Mark>): string
    decreases |marks|
  {
    if marks == [] then ""
    else
      match marks[0]
      case SentText(msg) => Frame(chunked, msg) + MarkedBytes(chunked, marks[1..])
      case SetFraming(now) => MarkedBytes(now, marks[1..])
  }

  lemma {:induction false} BodiesOfVisible(chunked: bool, ops: seq<Op>)
    ensures Bodies(chunked, ops) == MarkedBytes(chunked, Visible(ops))
    decreases |ops|
  {
    hide Frame;
    if ops != [] {
      BodiesOfVisible(FramingAfter(chunked, ops[0]), ops[1..]);
      if Sends(ops[0]) || SetsFraming(ops[0]) {
        assert Visible(ops)[1..] == Visible(ops[1..]);
      }
    }
  }

  /** Once the headers are out, two responses in the same framing send the same bytes for
      histories that differ only in what cannot be seen. */
  lemma {:induction false} LaterChangesInvisible(res: Res, ops: seq<Op>, res': Res, ops': seq<Op>)
    requires res.wroteHeaders && res'.wroteHeaders
    requires IsChunked(res.headers) == IsChunked(res'.headers) && Visible(ops) == Visible(ops')
    ensures Wire(ApplyAll(res, ops).1) == Wire(ApplyAll(res', ops').1)
  {
    AfterHeaders(res, ops);
    AfterHeaders(res', ops');
    BodiesOfVisible(IsChunked(res.headers), ops);
    BodiesOfVisible(IsChunked(res'.headers), ops');
  }

  // ---------------------------------------------------------------- framing

  function FrameAll(chunked: bool, msgs: seq<string>): string {
    if msgs == [] then "" else Frame(chunked, msgs[0]) + FrameAll(chunked, msgs[1..])
  }

  lemma {:induction false} FrameAllChunked(msgs: seq<string>)
    ensures FrameAll(true, msgs) == Encode(msgs)
  {
    if msgs != [] {
      FrameAllChunked(msgs[1..]);
    }
  }

  /** Every message of the history goes out while the framing in force is the declared one. */
  predicate KeepsFraming(declared: bool, current: bool, ops: seq<Op>)
    decreases |ops|
  {
    ops == [] ||
    ((Sends(ops[0]) ==> current == declared) && KeepsFraming(declared, FramingAfter(current, ops[0]), ops[1..]))
  }

  /** Bytes that some message adds or lacks, compared with the declared framing. */
  lemma {:induction false} BodiesLength(declared: bool, current: bool, ops: seq<Op>)
    ensures KeepsFraming(declared, current, ops) ==> Bodies(current, ops) == FrameAll(declared, Messages(ops))
    ensures !KeepsFraming(declared, current, ops) && declared ==>
            |Bodies(current, ops)| < |FrameAll(declared, Messages(ops))|
    ensures !KeepsFraming(declared, current, ops) && !declared ==>
            |Bodies(current, ops)| > |FrameAll(declared, Messages(ops))|
    decreases |ops|
  {
    if ops != [] {
      BodiesLength(declared, FramingAfter(current, ops[0]), ops[1..]);
      if Sends(ops[0]) {
        assert Messages(ops)[1..] == Messages(ops[1..]);
        assert |Frame(true, MessageOf(ops[0]))| > |Frame(false, MessageOf(ops[0]))|;
      }
    }
  }

  /** The framing that the emitted header block declares governs all messages exactly when no
      message is sent after `Transfer-Encoding` has changed to or from "chunked". */
  lemma {:induction false} FramingAgreement(res: Res, ops: seq<Op>)
    requires !res.wroteHeaders && FirstSend(ops) < |ops|
    ensures var i := FirstSend(ops);
            var at := AtFirstSend(res, ops);
            var declared := IsChunked(at.headers);
            Wire(ApplyAll(res, ops).1) == HeadOf(at, ops[i].now) + FrameAll(declared, Messages(ops)) <==>
            KeepsFraming(declared, declared, ops[i..])
  {
    hide HeadOf, Apply, Frame;
    var i := FirstSend(ops);
    var declared := IsChunked(AtFirstSend(res, ops).headers);
    WriterRefinement(res, ops);
    BodiesLength(declared, declared, ops[i..]);
    NoMessagesBefore(ops);
    var head := HeadOf(AtFirstSend(res, ops), ops[i].now);
    SamePrefix(head, Bodies(declared, ops[i..]), FrameAll(declared, Messages(ops)));
  }

  lemma {:induction false} SamePrefix(p: string, a: string, b: string)
    ensures p + a == p + b <==> a == b
  {
    if p + a == p + b {
      assert a == (p + a)[|p|..] && b == (p + b)[|p|..];
    }
  }

  lemma {:induction false} NoMessagesBefore(ops: seq<Op>)
    ensures Messages(ops[FirstSend(ops)..]) == Messages(ops)
  {
    if ops != [] && !Sends(ops[0]) {
      NoMessagesBefore(ops[1..]);
      assert ops[FirstSend(ops)..] == ops[1..][FirstSend(ops[1..])..];
    }
  }

  // ---------------------------------------------------------------- shutdown

  /** The last bytes written before call `i` are the terminator of a chunked body. */
  predicate AfterTerminator(calls: seq<Call>, i: nat)
    requires i < |calls|
  {
    && i > 0 && calls[i - 1].UvWrite? && |calls[i - 1].bytes| >= 5
    && calls[i - 1].bytes[|calls[i - 1].bytes| - 5..] == "0\r\n\r\n"
  }

  function Shutdowns(calls: seq<Call>): nat {
    if calls == [] then 0 else (if calls[0] == UvShutdown then 1 else 0) + Shutdowns(calls[1..])
  }

  function Endings(ops: seq<Op>): nat {
    if ops == [] then 0 else (if ops[0].EndConnection? then 1 else 0) + Endings(ops[1..])
  }

  lemma {:induction false} ShutdownsAppend(a: seq<Call>, b: seq<Call>)
    ensures Shutdowns(a + b) == Shutdowns(a) + Shutdowns(b)
  {
    if a == [] {
      assert a + b == b;
    } else {
      assert (a + b)[1..] == a[1..] + b;
      ShutdownsAppend(a[1..], b);
    }
  }

  lemma {:induction false} OneShutdown(res: Res, op: Op)
    requires Sends(op) ==> IsChunked(res.headers)
    ensures var c := Apply(res, op).1;
            && Shutdowns(c) == (if op.EndConnection? then 1 else 0)
            && forall i :: 0 <= i < |c| && c[i] == UvShutdown ==> AfterTerminator(c, i)
  {
    hide HeadOf;
    if Sends(op) {
      var bytes := Payload(res, MessageOf(op), op.now);
      assert [UvWrite(bytes)][1..] == [] && [UvWrite(bytes), UvShutdown][1..] == [UvShutdown];
      assert Shutdowns([UvShutdown]) == 1 + Shutdowns([UvShutdown][1..]);
      assert Chunk("") == "0\r\n\r\n";
      if op.EndConnection? {
        assert bytes[|bytes| - 5..] == "0\r\n\r\n";
      }
    }
  }

  /** While the framing stays chunked: every end of a connection shuts the stream down once, and only
      when the terminator of the body has just been written. */
  lemma {:induction false} ShutdownAfterTerminator(res: Res, ops: seq<Op>)
    requires KeepsFraming(true, IsChunked(res.headers), ops)
    ensures var calls := ApplyAll(res, ops).1;
            && Shutdowns(calls) == Endings(ops)
            && forall i :: 0 <= i < |calls| && calls[i] == UvShutdown ==> AfterTerminator(calls, i)
    decreases |ops|
  {
    hide Apply, HeadOf, Payload;
    if ops != [] {
      var (r, c) := Apply(res, ops[0]);
      var rest := ApplyAll(r, ops[1..]).1;
      OneShutdown(res, ops[0]);
      FramingOfState(res, ops[0]);
      ShutdownAfterTerminator(r, ops[1..]);
      ShutdownsAppend(c, rest);
      forall i | 0 <= i < |c + rest| && (c + rest)[i] == UvShutdown ensures AfterTerminator(c + rest, i) {
        if i < |c| {
          assert AfterTerminator(c, i);
        } else {
          assert rest[i - |c|] == UvShutdown && AfterTerminator(rest, i - |c|);
          assert (c + rest)[i - 1] == rest[i - |c| - 1];
        }
      }
    }
  }

  // ---------------------------------------------------------------- what a client reads

  lemma {:induction false} FormatIsClean(args: seq<string>, texts: seq<string>)
    requires |args| == |texts| > 0
    requires forall i :: 0 <= i < |texts| ==> '\n' !in args[i] && '\n' !in texts[i]
    requires texts[|texts| - 1] != "" && texts[|texts| - 1][|texts[|texts| - 1]| - 1] != '\r'
    ensures var s := Format(args, texts); '\n' !in s && s != "" && s[|s| - 1] != '\r'
    decreases |texts|
  {
    if |texts| == 1 {
      assert Format(args[1..], texts[1..]) == "";
    } else {
      FormatIsClean(args[1..], texts[1..]);
    }
  }

  lemma {:induction false} DateIsClean(now: Gmtime)
    ensures CleanValue(DateToStr(now).value)
  {
    PlainNames(now);
    PlainInt(now.mday); PlainInt(now.year + 1900);
    PlainInt(now.hour); PlainInt(now.min); PlainInt(now.sec);
    FormatIsClean(DateArgs(now), DATE_TEXTS);
  }

  lemma {:induction false} DecodeAll(msgs: seq<string>)
    ensures var i := FirstEmpty(msgs);
            Decode(Encode(msgs)) ==
            if i < |msgs| then Complete(msgs[..i], Encode(msgs[i + 1..])) else Partial(msgs)
  {
    var i := FirstEmpty(msgs);
    DecodeEncode(msgs, "");
    assert Encode(msgs) + "" == Encode(msgs);
    if i < |msgs| {
      assert Encode(msgs[i + 1..]) + "" == Encode(msgs[i + 1..]);
    } else {
      assert Decode("") == Partial([]);
      assert msgs + [] == msgs;
    }
  }

  /** In front of any body and at any time, the headers of a response read back as they were meant
      exactly when its content type, header names and header values are clean. */
  lemma {:induction false} HeadRead(at: Res, now: Gmtime, body: string)
    ensures ParseHead(HeadOf(at, now) + body) ==
            Some((Head(at.statusCode, StatusName(at.statusCode),
                       SentFields(at.contentType, DateToStr(now).value, at.headers)), body)) <==>
            CleanValue(at.contentType) && forall k :: k in at.headers ==> CleanName(k) && CleanValue(at.headers[k])
  {
    hide Block, ParseHead, SentFields, CleanName, CleanValue;
    DateIsClean(now);
    BlockRoundTrip(at.statusCode, at.contentType, DateToStr(now).value, at.headers, body);
  }

  lemma {:induction false} ChunkedOutput(res: Res, ops: seq<Op>)
    requires !res.wroteHeaders && FirstSend(ops) < |ops|
    requires IsChunked(AtFirstSend(res, ops).headers) && KeepsFraming(true, true, ops[FirstSend(ops)..])
    ensures Wire(ApplyAll(res, ops).1) ==
            HeadOf(AtFirstSend(res, ops), ops[FirstSend(ops)].now) + Encode(Messages(ops))
  {
    hide HeadOf, ApplyAll, Frame, KeepsFraming, Encode, AtFirstSend;
    FramingAgreement(res, ops);
    FrameAllChunked(Messages(ops));
  }

  /** A client that parses the header block and then the chunked body gets the status, the fields
      and the messages up to the first empty one, whatever bytes come after the output; the rest stays
      unread. */
  lemma {:induction false} ClientReads(res: Res, ops: seq<Op>, tail: string)
    requires !res.wroteHeaders && FirstSend(ops) < |ops|
    requires var at := AtFirstSend(res, ops);
             && IsChunked(at.headers) && KeepsFraming(true, true, ops[FirstSend(ops)..])
             && CleanValue(at.contentType)
             && forall k :: k in at.headers ==> CleanName(k) && CleanValue(at.headers[k])
    ensures var at := AtFirstSend(res, ops);
            var date := DateToStr(ops[FirstSend(ops)].now).value;
            var msgs := Messages(ops);
            var i := FirstEmpty(msgs);
            && ParseHead(Wire(ApplyAll(res, ops).1) + tail) ==
               Some((Head(at.statusCode, StatusName(at.statusCode), SentFields(at.contentType, date, at.headers)),
                     Encode(msgs) + tail))
            && Decode(Encode(msgs) + tail) ==
               if i < |msgs| then Complete(msgs[..i], Encode(msgs[i + 1..]) + tail) else Decode(tail).After(msgs)
  {
    hide HeadOf, ApplyAll, AtFirstSend, KeepsFraming, CleanName, CleanValue, ParseHead, Decode, Encode, IsChunked,
         Messages, SentFields, StatusName, DateToStr, FirstSend, FirstEmpty, Wire;
    ChunkedOutput(res, ops);
    var head := HeadOf(AtFirstSend(res, ops), ops[FirstSend(ops)].now);
    HeadRead(AtFirstSend(res, ops), ops[FirstSend(ops)].now, Encode(Messages(ops)) + tail);
    Associative(head, Encode(Messages(ops)), tail);
    DecodeEncode(Messages(ops), tail);
  }
}
