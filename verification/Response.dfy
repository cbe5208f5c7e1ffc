/** The response object of a connection: what each operation does to its fields, and which
    transport calls it makes. */
module Response {
  import opened Text
  import opened HttpDate
  import opened HeaderBlock
  import Chunked

  /** A closure registered for an event; `Ignore` is the one a connection starts with. */
  datatype Handler = Ignore | Closure(id: nat)

  datatype Listener = Data(handler: Handler) | End(handler: Handler)

  /** A value of `resT`, without its transport handle. */
  datatype Res = Res(statusCode: int, contentType: string, headers: StringMap, wroteHeaders: bool,
                     onData: Handler, onEnd: Handler)

  /** The record built when a connection is accepted. */
  const INITIAL := Res(200, "text/plain",
                       map["Transfer-Encoding" := "chunked", "Connection" := "keep-alive"],
                       false, Ignore, Ignore)

  /** What user code can do to a response. A write reads the clock when it renders the headers;
      the reading is given with the operation. */
  datatype Op =
    | Write(msg: string, now: Gmtime)
    | EndConnection(now: Gmtime)
    | SetHeader(name: string, value: string)
    | SetStatus(code: int)
    | SetContentType(mime: string)
    | On(listener: Listener)

  /** The calls made on the connection's transport handle. */
  datatype Call = UvWrite(bytes: string) | UvShutdown

  predicate IsChunked(headers: StringMap) {
    "Transfer-Encoding" in headers && headers["Transfer-Encoding"] == "chunked"
  }

  function Frame(chunked: bool, msg: string): string {
    if chunked then Chunked.Chunk(msg) else msg
  }

  function HeadOf(res: Res, now: Gmtime): string {
    Block(res.statusCode, res.contentType, DateToStr(now).value, res.headers)
  }

  /** The bytes of one `write`: the header block if it has not been sent, then the message in
      the framing that the headers ask for now. */
  function Payload(res: Res, msg: string, now: Gmtime): string {
    (if res.wroteHeaders then "" else HeadOf(res, now)) + Frame(IsChunked(res.headers), msg)
  }

  function Apply(res: Res, op: Op): (Res, seq<Call>) {
    match op
    case Write(msg, now) => (res.(wroteHeaders := true), [UvWrite(Payload(res, msg, now))])
    case EndConnection(now) => (res.(wroteHeaders := true), [UvWrite(Payload(res, "", now)), UvShutdown])
    case SetHeader(name, value) => (res.(headers := res.headers[name := value]), [])
    case SetStatus(code) => (res.(statusCode := code), [])
    case SetContentType(mime) => (res.(contentType := mime), [])
    case On(Data(h)) => (res.(onData := h), [])
    case On(End(h)) => (res.(onEnd := h), [])
  }

  function ApplyAll(res: Res, ops: seq<Op>): (Res, seq<Call>)
    decreases |ops|
  {
    if ops == [] then (res, [])
    else
      var (r1, c1) := Apply(res, ops[0]);
      var (r2, c2) := ApplyAll(r1, ops[1..]);
      (r2, c1 + c2)
  }

  /** The bytes handed to the transport, in order. */
  function Wire(calls: seq<Call>): string {
    if calls == [] then ""
    else if calls[0].UvWrite? then calls[0].bytes + Wire(calls[1..])
    else Wire(calls[1..])
  }

  lemma {:induction false} ApplyAllAppend(res: Res, a: seq<Op>, b: seq<Op>)
    ensures ApplyAll(res, a + b) ==
            (ApplyAll(ApplyAll(res, a).0, b).0, ApplyAll(res, a).1 + ApplyAll(ApplyAll(res, a).0, b).1)
    decreases |a|
  {
    hide Apply;
    if a == [] {
      assert a + b == b;
      assert [] + ApplyAll(res, b).1 == ApplyAll(res, b).1;
    } else {
      assert (a + b)[1..] == a[1..] + b;
      var (r, c) := Apply(res, a[0]);
      ApplyAllAppend(r, a[1..], b);
      var x, y := ApplyAll(r, a[1..]).1, ApplyAll(ApplyAll(r, a[1..]).0, b).1;
      assert c + (x + y) == (c + x) + y;
    }
  }

  lemma {:induction false} ApplyAllStep(res: Res, made: seq<Call>, ops: seq<Op>)
    requires ops != []
    ensures var (r, c) := Apply(res, ops[0]);
            && ApplyAll(res, ops).0 == ApplyAll(r, ops[1..]).0
            && made + ApplyAll(res, ops).1 == made + c + ApplyAll(r, ops[1..]).1
  {
    hide Apply;
  }

  lemma {:induction false} WireAppend(a: seq<Call>, b: seq<Call>)
    ensures Wire(a + b) == Wire(a) + Wire(b)
  {
    if a == [] {
      assert a + b == b;
    } else {
      assert (a + b)[1..] == a[1..] + b;
      WireAppend(a[1..], b);
    }
  }

  lemma {:induction false} InitialIsClean()
    ensures CleanValue(INITIAL.contentType)
    ensures forall k :: k in INITIAL.headers ==> CleanName(k) && CleanValue(INITIAL.headers[k])
  {
    assert CleanName("Transfer-Encoding") && CleanName("Connection");
    assert CleanValue("chunked") && CleanValue("keep-alive");
  }

  lemma {:induction false} InitialHasTwoHeaders()
    ensures |Bindings(INITIAL.headers)| == 2
  {
    BindingsLength(INITIAL.headers);
    assert INITIAL.headers.Keys == {"Transfer-Encoding", "Connection"};
    assert "Transfer-Encoding"[0] != "Connection"[0];
  }

  lemma {:induction false} InitialBindings()
    ensures Bindings(INITIAL.headers) == [("Connection", "keep-alive"), ("Transfer-Encoding", "chunked")]
  {
    var b := Bindings(INITIAL.headers);
    BindingsOf(INITIAL.headers);
    InitialHasTwoHeaders();
    hide Bindings;
    assert b[0] in b && b[1] in b && Less(b[0].0, b[1].0);
    assert "Transfer-Encoding"[0] > "Connection"[0];
    assert !Less("Transfer-Encoding", "Connection");
    LessTotal(b[0].0, b[1].0);
  }

  /** The header lines that are sent when user code sets no header. */
  lemma {:induction false} DefaultFields()
    ensures Reverse(Bindings(INITIAL.headers)) == [("Transfer-Encoding", "chunked"), ("Connection", "keep-alive")]
  {
    InitialBindings();
    hide Bindings, Reverse;
    ReverseOfTwo<(string, string)>(("Connection", "keep-alive"), ("Transfer-Encoding", "chunked"));
  }

  /** A `resT`, with the calls made on its `client`. */
  class ResT {
    var statusCode: int
    var contentType: string
    var headers: StringMap
    var wroteHeaders: bool
    var onData: Handler
    var onEnd: Handler
    var calls: seq<Call>

    ghost function State(): Res
      reads this
    {
      Res(statusCode, contentType, headers, wroteHeaders, onData, onEnd)
    }

    constructor ()
      ensures State() == INITIAL && calls == []
    {
      statusCode, contentType := 200, "text/plain";
      headers := map["Transfer-Encoding" := "chunked"]["Connection" := "keep-alive"];
      wroteHeaders, onData, onEnd := false, Ignore, Ignore;
      calls := [];
    }

    method Write(msg: string, now: Gmtime)
      modifies this
      ensures State() == Apply(old(State()), Op.Write(msg, now)).0
      ensures calls == old(calls) + Apply(old(State()), Op.Write(msg, now)).1
    {
      hide Chunked.Chunk, StatusLine, Line, RenderHeaders;
      var headerStr := "";
      if !wroteHeaders {
        wroteHeaders := true;
        var http := StatusLine(statusCode);
        var mime := Line("Content-type", contentType);
        var date := Line("Date", DateToStr(now).value);
        headerStr := http + (mime + (date + RenderHeaders(headers)));
      }
      var chunkedMsg;
      if "Transfer-Encoding" in headers && headers["Transfer-Encoding"] == "chunked" {
        chunkedMsg := headerStr + Chunked.Chunk(msg);
      } else {
        chunkedMsg := headerStr + msg;
      }
      calls := calls + [UvWrite(chunkedMsg)];
    }

    method SetHeader(name: string, value: string)
      modifies this
      ensures State() == Apply(old(State()), Op.SetHeader(name, value)).0 && calls == old(calls)
    {
      headers := headers[name := value];
    }

    method On(listener: Listener)
      modifies this
      ensures State() == Apply(old(State()), Op.On(listener)).0 && calls == old(calls)
    {
      match listener
      case Data(cb) => onData := cb;
      case End(cb) => onEnd := cb;
    }

    method EndConnection(now: Gmtime)
      modifies this
      ensures State() == Apply(old(State()), Op.EndConnection(now)).0
      ensures calls == old(calls) + Apply(old(State()), Op.EndConnection(now)).1
    {
      hide HeadOf, Frame;
      Write("", now);
      calls := calls + [UvShutdown];
    }

    /** One statement of user code. */
    method Perform(op: Op)
      modifies this
      ensures State() == Apply(old(State()), op).0
      ensures calls == old(calls) + Apply(old(State()), op).1
    {
      match op
      case Write(msg, now) => Write(msg, now);
      case EndConnection(now) => EndConnection(now);
      case SetHeader(name, value) => SetHeader(name, value);
      case SetStatus(code) => statusCode := code;
      case SetContentType(mime) => contentType := mime;
      case On(listener) => On(listener);
    }

    /** The statements of a callback, one after the other. */
    method PerformAll(ops: seq<Op>)
      modifies this
      ensures State() == ApplyAll(old(State()), ops).0
      ensures calls == old(calls) + ApplyAll(old(State()), ops).1
      decreases |ops|
    {
      hide Apply;
      if ops != [] {
        ghost var before, made := State(), calls;
        Perform(ops[0]);
        PerformAll(ops[1..]);
        ApplyAllStep(before, made, ops);
      }
    }
  }
}
