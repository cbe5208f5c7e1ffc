/** The static file server: reading a file line by line, choosing its type, answering a request. */
module StaticFiles {
  import opened Text
  import opened HttpDate
  import opened HeaderBlock
  import opened Response
  import opened RequestParser
  import opened RequestLaws
  import Chunked
  import WriterLaws

  // ---------------------------------------------------------------- readFile

  /** `String.concat("\n", parts)` */
  function Join(parts: seq<string>): string {
    if parts == [] then ""
    else if |parts| == 1 then parts[0]
    else parts[0] + "\n" + Join(parts[1..])
  }

  /** `input_line`: the next line without its line feed and the rest of the channel; `None` stands
      for `End_of_file`. A last line without a line feed is a line too. */
  function InputLine(chan: string): (r: Option<(string, string)>)
    ensures r.Some? ==> |r.value.1| < |chan|
  {
    if chan == "" then None
    else
      var i := IndexOf(chan, '\n');
      Some((chan[..i], if i == |chan| then "" else chan[i + 1..]))
  }

  function ReadLines(chan: string, acc: seq<string>): string
    decreases |chan|
  {
    match InputLine(chan)
    case Some((line, rest)) => ReadLines(rest, [line] + acc)
    case None => Join(Reverse(acc))
  }

  function ReadFile(content: string): string { ReadLines(content, []) }

  function WithoutLastLineFeed(s: string): string {
    if s != "" && s[|s| - 1] == '\n' then s[..|s| - 1] else s
  }

  lemma {:induction false} JoinSnoc(parts: seq<string>, last: string)
    ensures Join(parts + [last]) == if parts == [] then last else Join(parts) + "\n" + last
  {
    if parts == [] {
      assert parts + [last] == [last];
    } else {
      assert (parts + [last])[1..] == parts[1..] + [last];
      JoinSnoc(parts[1..], last);
      if |parts| == 1 {
        assert parts[1..] + [last] == [last];
      }
    }
  }

  /** The text read so far, and the separator before the next line. */
  function Before(acc: seq<string>): string {
    if acc == [] then "" else Join(Reverse(acc)) + "\n"
  }

  lemma {:induction false} JoinLine(acc: seq<string>, line: string)
    ensures Join(Reverse([line] + acc)) == Before(acc) + line
  {
    assert ([line] + acc)[1..] == acc;
    JoinSnoc(Reverse(acc), line);
    assert "" + line == line;
  }

  lemma {:induction false} StripLine(chan: string)
    requires chan != ""
    ensures var (line, rest) := InputLine(chan).value;
            WithoutLastLineFeed(chan) == if rest == "" then line else line + "\n" + WithoutLastLineFeed(rest)
  {
    var (line, rest) := InputLine(chan).value;
    if rest != "" {
      assert chan == line + "\n" + rest;
    }
  }

  lemma {:induction false} AssociateLine(a: string, line: string, tail: string)
    ensures a + line + "\n" + tail == a + (line + "\n" + tail)
  {
  }

  /** The lines still to be read are joined to those read, but for a line feed at the end. */
  lemma {:induction false} ReadLinesResult(chan: string, acc: seq<string>)
    requires chan != ""
    ensures ReadLines(chan, acc) == Before(acc) + WithoutLastLineFeed(chan)
    decreases |chan|
  {
    var (line, rest) := InputLine(chan).value;
    StripLine(chan);
    JoinLine(acc, line);
    if rest != "" {
      ReadLinesResult(rest, [line] + acc);
      AssociateLine(Before(acc), line, WithoutLastLineFeed(rest));
    }
  }

  /** A file is read back but for one line feed at its end. */
  lemma {:induction false} ReadFileLaw(content: string)
    ensures ReadFile(content) == WithoutLastLineFeed(content)
  {
    if content != "" {
      ReadLinesResult(content, []);
    }
    assert "" + WithoutLastLineFeed(content) == WithoutLastLineFeed(content);
  }

  // ---------------------------------------------------------------- contentType

  /** `String.rindex`, or -1 for `Not_found`. */
  function LastIndexOf(s: string, c: char): (i: int)
    ensures -1 <= i < |s|
    ensures i >= 0 ==> s[i] == c
    ensures forall j :: i < j < |s| ==> s[j] != c
  {
    if s == "" then -1
    else if s[|s| - 1] == c then |s| - 1
    else LastIndexOf(s[..|s| - 1], c)
  }

  function TypeOfExtension(extension: string): string {
    if extension == "html" || extension == "htm" then "text/html"
    else if extension == "css" then "text/css"
    else if extension == "mp4" then "video/mp4"
    else if extension == "js" then "application/javascript"
    else "text/plain"
  }

  function ContentType(path: string): string {
    var i := LastIndexOf(path, '.');
    if i < 0 then "text/plain" else TypeOfExtension(path[i + 1..])
  }

  /** Whatever comes before it, the text after the last dot decides. */
  lemma {:induction false} ContentTypeOfExtension(stem: string, extension: string)
    requires '.' !in extension
    ensures ContentType(stem + "." + extension) == TypeOfExtension(extension)
    ensures ContentType(extension) == "text/plain"
  {
    var path := stem + "." + extension;
    var i := LastIndexOf(path, '.');
    assert path[|stem|] == '.';
    assert forall j :: |stem| < j < |path| ==> path[j] == extension[j - |stem| - 1];
    assert i == |stem|;
    assert path[|stem| + 1..] == extension;
  }

  predicate EndsWith(s: string, suffix: string) {
    |suffix| <= |s| && s[|s| - |suffix|..] == suffix
  }

  lemma {:induction false} EndsWithExtension(path: string, i: nat, extension: string)
    requires i < |path| && path[i] == '.' && (forall j :: i < j < |path| ==> path[j] != '.')
    requires '.' !in extension
    ensures EndsWith(path, "." + extension) <==> path[i + 1..] == extension
  {
    var suffix := "." + extension;
    if EndsWith(path, suffix) {
      var n := |path| - |suffix|;
      assert path[n..][0] == '.' && path[n] == '.';
      assert forall k :: 0 <= k < |extension| ==> path[n + 1 + k] == suffix[1 + k] == extension[k];
      assert n == i;
      assert path[i + 1..] == path[n..][1..] == suffix[1..] == extension;
    }
    if path[i + 1..] == extension {
      assert path[i..] == [path[i]] + path[i + 1..];
    }
  }

  lemma {:induction false} TypeOfEnd(path: string, extension: string)
    requires '.' !in extension && EndsWith(path, "." + extension)
    ensures ContentType(path) == TypeOfExtension(extension)
  {
    hide TypeOfExtension;
    var i, n := LastIndexOf(path, '.'), |path| - 1 - |extension|;
    assert path[n] == path[n..][0] == '.';
    EndsWithExtension(path, i, extension);
  }

  lemma {:induction false} EndOfType(path: string, extension: string)
    requires LastIndexOf(path, '.') >= 0 && path[LastIndexOf(path, '.') + 1..] == extension && '.' !in extension
    ensures EndsWith(path, "." + extension)
  {
    EndsWithExtension(path, LastIndexOf(path, '.'), extension);
  }

  predicate KnownEnd(path: string) {
    EndsWith(path, ".html") || EndsWith(path, ".htm") || EndsWith(path, ".css") || EndsWith(path, ".mp4") ||
    EndsWith(path, ".js")
  }

  lemma {:induction false} KnownExtension(path: string)
    requires ContentType(path) != "text/plain"
    ensures KnownEnd(path)
  {
    hide EndsWith, LastIndexOf;
    var i := LastIndexOf(path, '.');
    var extension := path[i + 1..];
    assert '.' !in extension;
    EndOfType(path, extension);
    assert "." + "html" == ".html" && "." + "htm" == ".htm" && "." + "css" == ".css" && "." + "mp4" == ".mp4";
    assert "." + "js" == ".js";
  }

  /** The type goes by the end of the name, and is text/plain exactly for all other names. */
  lemma {:induction false} ContentTypeOfEnd(path: string)
    ensures EndsWith(path, ".html") || EndsWith(path, ".htm") ==> ContentType(path) == "text/html"
    ensures EndsWith(path, ".css") ==> ContentType(path) == "text/css"
    ensures EndsWith(path, ".mp4") ==> ContentType(path) == "video/mp4"
    ensures EndsWith(path, ".js") ==> ContentType(path) == "application/javascript"
    ensures ContentType(path) == "text/plain" <==> !KnownEnd(path)
  {
    hide EndsWith, ContentType;
    assert "." + "html" == ".html" && "." + "htm" == ".htm" && "." + "css" == ".css" && "." + "mp4" == ".mp4";
    assert "." + "js" == ".js";
    if EndsWith(path, ".html") { TypeOfEnd(path, "html"); }
    if EndsWith(path, ".htm") { TypeOfEnd(path, "htm"); }
    if EndsWith(path, ".css") { TypeOfEnd(path, "css"); }
    if EndsWith(path, ".mp4") { TypeOfEnd(path, "mp4"); }
    if EndsWith(path, ".js") { TypeOfEnd(path, "js"); }
    if ContentType(path) != "text/plain" { KnownExtension(path); }
  }

  // ---------------------------------------------------------------- the request handler

  const NOT_FOUND := "Couldn't find that!"

  function Target(url: string): string
    requires url != ""
  {
    url + (if url[|url| - 1] == '/' then "index.html" else "")
  }

  /** The statements of the handler. An empty URL has no last character, and the access raises
      before anything is done; a file that cannot be opened is a `Sys_error`. */
  function Answer(files: map<string, string>, url: string, now: Gmtime): seq<Op> {
    if url == "" then []
    else
      var target := Target(url);
      if "." + target in files then
        [SetContentType(ContentType(target)), Write(ReadFile(files["." + target]), now), EndConnection(now)]
      else
        [SetStatus(404), Write(NOT_FOUND, now), EndConnection(now)]
  }

  /** The user state is the reading of the clock. */
  function FileServer(files: map<string, string>): App<Gmtime> {
    App((now: Gmtime, req: Req) => (now, Answer(files, req.url, now)),
        (now: Gmtime, _: nat, _: string) => (now, []),
        (now: Gmtime, _: nat) => (now, []))
  }

  function ExpectedBody(files: map<string, string>, url: string): string
    requires url != ""
  {
    if "." + Target(url) in files then WithoutLastLineFeed(files["." + Target(url)]) else NOT_FOUND
  }

  function ExpectedState(files: map<string, string>, url: string): Res
    requires url != ""
  {
    if "." + Target(url) in files then INITIAL.(contentType := ContentType(Target(url)))
    else INITIAL.(statusCode := 404)
  }

  lemma {:induction false} ThreeOps(first: Op, body: string, now: Gmtime)
    requires first.SetStatus? || first.SetContentType?
    ensures var ops := [first, Write(body, now), EndConnection(now)];
            && WriterLaws.FirstSend(ops) == 1
            && WriterLaws.AtFirstSend(INITIAL, ops) == Apply(INITIAL, first).0
            && WriterLaws.Messages(ops) == [body, ""]
            && WriterLaws.KeepsFraming(true, true, ops[1..])
  {
    var write, end := Write(body, now), EndConnection(now);
    var ops := [first, write, end];
    assert ops[1..] == [write, end] && [write, end][1..] == [end] && [end][1..] == [];
    assert WriterLaws.FirstSend([write, end]) == 0;
    assert ops[..1] == [first];
    assert ApplyAll(INITIAL, [first]).0 == Apply(INITIAL, first).0;
    assert WriterLaws.Messages([end]) == [""] + WriterLaws.Messages([]);
    assert WriterLaws.Messages([write, end]) == [body] + [""];
    assert WriterLaws.KeepsFraming(true, true, [end]);
  }

  lemma {:induction false} AnswerOps(files: map<string, string>, url: string, now: Gmtime)
    requires url != ""
    ensures var found := "." + Target(url) in files;
            var first := if found then SetContentType(ContentType(Target(url))) else SetStatus(404);
            && Answer(files, url, now) == [first, Write(ExpectedBody(files, url), now), EndConnection(now)]
            && Apply(INITIAL, first).0 == ExpectedState(files, url)
  {
    var path := "." + Target(url);
    if path in files {
      ReadFileLaw(files[path]);
    }
  }

  lemma {:induction false} TypesAreClean(path: string)
    ensures CleanValue(ContentType(path))
  {
    var t := ContentType(path);
    assert CleanValue("text/plain");
    assert CleanValue("text/html");
    assert CleanValue("text/css");
    assert CleanValue("video/mp4");
    assert CleanValue("application/javascript");
    assert t == "text/plain" || t == "text/html" || t == "text/css" || t == "video/mp4" ||
           t == "application/javascript";
  }

  lemma {:induction false} KeepsHandlers(res: Res, ops: seq<Op>)
    requires forall op :: op in ops ==> !op.On?
    ensures var r := ApplyAll(res, ops).0; r.onData == res.onData && r.onEnd == res.onEnd
    decreases |ops|
  {
    if ops != [] {
      KeepsHandlers(Apply(res, ops[0]).0, ops[1..]);
    }
  }

  /** Without handlers, a body and its end do nothing to the response. */
  lemma {:induction false} BodyIgnored<S>(app: App<S>, c: Conn<S>, body: seq<string>)
    requires c.res.onData == Ignore && c.res.onEnd == Ignore
    ensures Run(app, c, BodyEvents(body) + [MessageComplete]).ops == c.ops
    decreases |body|
  {
    if body == [] {
      assert BodyEvents(body) + [MessageComplete] == [MessageComplete] + [];
      RunCons(app, c, MessageComplete, []);
    } else {
      var rest := BodyEvents(body[1..]) + [MessageComplete];
      assert BodyEvents(body) + [MessageComplete] == [Body(body[0])] + rest;
      RunCons(app, c, Body(body[0]), rest);
      BodyIgnored(app, EventStep(app, c, Body(body[0])), body[1..]);
    }
  }

  lemma {:induction false} RegistersNothing(files: map<string, string>, url: string, now: Gmtime)
    ensures forall op :: op in Answer(files, url, now) ==> !op.On?
  {
    hide ReadFile, ContentType;
  }

  /** All that the server does for the first message of a connection is the answer. */
  lemma {:induction false} MessageAnswered(files: map<string, string>, now: Gmtime, m: Message)
    ensures var c := Run(FileServer(files), Fresh(now), MessageEvents(m));
            c.ops == Answer(files, LastUrl("", m.urls), now) && c.calls == ApplyAll(INITIAL, c.ops).1
  {
    hide Run, ApplyAll, Answer, Replay, LastData, LastEnd, UrlEvents, LineEvents, BodyEvents, LastUrl, FoldLeft2,
         Notices, AllDue;
    var app, c := FileServer(files), Fresh(now);
    var begin := [MessageBegin] + (UrlEvents(m.urls) + LineEvents(m.lines));
    var tail := BodyEvents(m.body) + [MessageComplete];
    assert MessageEvents(m) == begin + ([HeadersComplete] + tail);
    RunAppend(app, c, begin, [HeadersComplete] + tail);
    Begun(app, c, [], m);
    var c1 := Run(app, c, begin);
    RunCons(app, c1, HeadersComplete, tail);
    RequestStep(app, c1);
    RegistersNothing(files, c1.url, now);
    KeepsHandlers(INITIAL, Answer(files, c1.url, now));
    assert [] + Answer(files, c1.url, now) == Answer(files, c1.url, now);
    BodyIgnored(app, EventStep(app, c1, HeadersComplete), m.body);
    ExactlyOnceInOrder(app, now, MessageEvents(m));
  }

  /** The index page of a directory, and every other file under its own name. */
  lemma {:induction false} TargetOf(url: string)
    requires url != ""
    ensures forall dir :: url == dir + "/" ==> Target(url) == dir + "/index.html"
    ensures url[|url| - 1] != '/' ==> Target(url) == url
  {
    forall dir: string | url == dir + "/" ensures Target(url) == dir + "/index.html" {
      assert url[|url| - 1] == '/';
      assert dir + "/" + "index.html" == dir + "/index.html";
    }
    assert url + "" == url;
  }

  /** The file of that name, in the current directory, is what a client reads: its status, its type, the
      default headers, and its text without the last line feed; or a 404 when there is no such file. An
      empty body is cut short by its own empty chunk, and one terminator stays unread. */
  predicate Serves(wire: string, files: map<string, string>, name: string, now: Gmtime) {
    var found := "." + name in files;
    var body := if found then WithoutLastLineFeed(files["." + name]) else "Couldn't find that!";
    && ParseHead(wire).Some?
    && var (head, rest) := ParseHead(wire).value;
       && head.status == (if found then 200 else 404)
       && head.reason == (if found then "OK" else "Unknown")
       && head.fields == [("Content-type", if found then ContentType(name) else "text/plain"),
                          ("Date", DateToStr(now).value),
                          ("Transfer-Encoding", "chunked"), ("Connection", "keep-alive")]
       && Chunked.Decode(rest) ==
          if body == "" then Chunked.Complete([], "0\r\n\r\n") else Chunked.Complete([body], "")
  }

  lemma {:induction false} AnswerShape(files: map<string, string>, url: string, now: Gmtime)
    requires url != ""
    ensures var ops := Answer(files, url, now);
            && |ops| == 3 && ops[1] == Write(ExpectedBody(files, url), now) && WriterLaws.FirstSend(ops) == 1
            && WriterLaws.AtFirstSend(INITIAL, ops) == ExpectedState(files, url)
            && WriterLaws.Messages(ops) == [ExpectedBody(files, url), ""]
            && WriterLaws.KeepsFraming(true, true, ops[1..])
  {
    hide Answer, ContentType, ExpectedBody, ExpectedState, WriterLaws.KeepsFraming, WriterLaws.AtFirstSend,
         WriterLaws.Messages, Apply;
    AnswerOps(files, url, now);
    ThreeOps(Answer(files, url, now)[0], ExpectedBody(files, url), now);
  }

  lemma {:induction false} CleanState(files: map<string, string>, url: string)
    requires url != ""
    ensures var at := ExpectedState(files, url);
            && at.headers == INITIAL.headers && IsChunked(at.headers) && CleanValue(at.contentType)
            && forall k :: k in at.headers ==> CleanName(k) && CleanValue(at.headers[k])
  {
    hide CleanName, CleanValue, ContentType;
    InitialIsClean();
    TypesAreClean(Target(url));
  }

  lemma {:induction false} AnswerRead(files: map<string, string>, url: string, now: Gmtime)
    requires url != ""
    ensures var at := ExpectedState(files, url);
            ParseHead(Wire(ApplyAll(INITIAL, Answer(files, url, now)).1)) ==
            Some((Head(at.statusCode, StatusName(at.statusCode),
                       SentFields(at.contentType, DateToStr(now).value, INITIAL.headers)),
                  Chunked.Encode([ExpectedBody(files, url), ""])))
  {
    AnswerShape(files, url, now);
    CleanState(files, url);
    hide Apply, ApplyAll, ParseHead, Chunked.Encode, Chunked.Decode, SentFields, CleanName, CleanValue, Answer,
         ContentType, ExpectedBody, ExpectedState, IsChunked, WriterLaws.KeepsFraming, WriterLaws.FirstSend,
         WriterLaws.AtFirstSend, WriterLaws.Messages, Wire, Chunked.FirstEmpty, StatusName, DateToStr;
    var ops := Answer(files, url, now);
    var wire, body := Wire(ApplyAll(INITIAL, ops).1), Chunked.Encode([ExpectedBody(files, url), ""]);
    WriterLaws.ClientReads(INITIAL, ops, "");
    assert wire + "" == wire && body + "" == body;
  }

  lemma {:induction false} AnswerServes(files: map<string, string>, url: string, now: Gmtime)
    requires url != ""
    ensures Serves(Wire(ApplyAll(INITIAL, Answer(files, url, now)).1), files, Target(url), now)
  {
    hide ApplyAll, ParseHead, Chunked.Encode, Chunked.Decode, Bindings, Answer, ContentType, Wire, Target;
    var at := ExpectedState(files, url);
    AnswerRead(files, url, now);
    DefaultFields();
    hide Reverse;
    DecodedBody(ExpectedBody(files, url));
  }

  /** What a client gets for the first request on a connection, whatever its headers and body: for a URL that
      ends in a slash the index page there, for any other the file of that name, and for an empty URL, at
      which the handler raises, nothing. */
  lemma {:induction false} FileServed(files: map<string, string>, now: Gmtime, m: Message)
    ensures var url := LastUrl("", m.urls);
            var calls := Run(FileServer(files), Fresh(now), MessageEvents(m)).calls;
            && (forall dir :: url == dir + "/" ==> Serves(Wire(calls), files, dir + "/index.html", now))
            && (url != "" && url[|url| - 1] != '/' ==> Serves(Wire(calls), files, url, now))
            && (url == "" ==> calls == [])
  {
    hide Run, Serves, Answer, ApplyAll, Wire;
    var url := LastUrl("", m.urls);
    MessageAnswered(files, now, m);
    if url == "" {
      NoAnswer(files, now);
    } else {
      AnswerServes(files, url, now);
      TargetOf(url);
    }
  }

  lemma {:induction false} NoAnswer(files: map<string, string>, now: Gmtime)
    ensures ApplyAll(INITIAL, Answer(files, "", now)).1 == []
  {
  }

  lemma {:induction false} DecodedBody(body: string)
    ensures Chunked.Decode(Chunked.Encode([body, ""])) ==
            if body == "" then Chunked.Complete([], "0\r\n\r\n") else Chunked.Complete([body], "")
  {
    WriterLaws.DecodeAll([body, ""]);
    assert [body, ""][1..] == [""] && [body, ""][..1] == [body] && [body, ""][..0] == [] && [body, ""][2..] == [];
    assert Chunked.FirstEmpty([""]) == 0;
    assert Chunked.Encode([""]) == Chunked.Chunk("") + Chunked.Encode([]);
    assert Chunked.Chunk("") == "0\r\n\r\n";
  }
}
