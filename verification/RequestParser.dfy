/** The callbacks that a connection gives to the HTTP parser: how they collect a request, and how
    they hand it and its body to user code. */
module RequestParser {
  import opened Text
  import opened HeaderBlock
  import opened Response

  /** One callback of the HTTP parser. `on_status` is registered too, and ignored. */
  datatype Event =
    | MessageBegin
    | Url(text: string)
    | Status(text: string)
    | HeaderField(text: string)
    | HeaderValue(text: string)
    | HeadersComplete
    | Body(text: string)
    | MessageComplete

  datatype Req = Req(url: string, headers: StringMap)

  /** User code. `S` is everything its closures share: references, captured values, the clock. */
  datatype App<!S> = App(
    request: (S, Req) -> (S, seq<Op>),
    data: (S, nat, string) -> (S, seq<Op>),
    end: (S, nat) -> (S, seq<Op>))

  /** What reached user code: a request, a body fragment or an end of message with the handler it
      went to; or the exception of an unbalanced header list. */
  datatype Delivery =
    | ToRequest(req: Req)
    | ToData(handler: Handler, fragment: string)
    | ToEnd(handler: Handler)
    | Raised

  /** `List.fold_left2`, which raises when one list ends before the other. */
  function FoldLeft2(m: StringMap, fs: seq<string>, vs: seq<string>): Option<StringMap>
    decreases |fs|
  {
    if fs == [] && vs == [] then Some(m)
    else if fs == [] || vs == [] then None
    else FoldLeft2(m[fs[0] := vs[0]], fs[1..], vs[1..])
  }

  /** The state behind the callbacks of one connection. `fields` and `values` are the lists of the
      source, latest element first; `ops` and `log` record what user code did and received. */
  datatype Conn<S> = Conn(url: string, fields: seq<string>, values: seq<string>, user: S,
                          res: Res, calls: seq<Call>, ops: seq<Op>, log: seq<Delivery>)

  function Fresh<S>(user: S): Conn<S> {
    Conn("", [], [], user, INITIAL, [], [], [])
  }

  /** Runs a callback's statements on the response of the connection. */
  function RunOps<S>(c: Conn<S>, d: Delivery, result: (S, seq<Op>)): Conn<S> {
    var (res, calls) := ApplyAll(c.res, result.1);
    c.(user := result.0, res := res, calls := c.calls + calls, ops := c.ops + result.1, log := c.log + [d])
  }

  function HeadersCompleteStep<S>(app: App<S>, c: Conn<S>): Conn<S> {
    match FoldLeft2(map[], c.fields, c.values)
    case None => c.(log := c.log + [Raised])
    case Some(headers) =>
      var req := Req(c.url, headers);
      RunOps(c, ToRequest(req), app.request(c.user, req))
  }

  function BodyStep<S>(app: App<S>, c: Conn<S>, text: string): Conn<S> {
    var h := c.res.onData;
    RunOps(c, ToData(h, text), if h.Ignore? then (c.user, []) else app.data(c.user, h.id, text))
  }

  function MessageCompleteStep<S>(app: App<S>, c: Conn<S>): Conn<S> {
    var h := c.res.onEnd;
    RunOps(c, ToEnd(h), if h.Ignore? then (c.user, []) else app.end(c.user, h.id))
  }

  function EventStep<S>(app: App<S>, c: Conn<S>, e: Event): Conn<S> {
    match e
    case MessageBegin => c
    case Url(u) => c.(url := u)
    case Status(_) => c
    case HeaderField(f) => c.(fields := [f] + c.fields)
    case HeaderValue(v) => c.(values := [v] + c.values)
    case HeadersComplete => HeadersCompleteStep(app, c)
    case Body(text) => BodyStep(app, c, text)
    case MessageComplete => MessageCompleteStep(app, c)
  }

  /** An exception leaves the callback: the header lists are not of one length. */
  predicate Raises<S>(c: Conn<S>, e: Event) {
    e.HeadersComplete? && |c.fields| != |c.values|
  }

  function Run<S>(app: App<S>, c: Conn<S>, events: seq<Event>): Conn<S>
    decreases |events|
  {
    if events == [] then c else Run(app, EventStep(app, c, events[0]), events[1..])
  }

  lemma {:induction false} RunAppend<S>(app: App<S>, c: Conn<S>, a: seq<Event>, b: seq<Event>)
    ensures Run(app, c, a + b) == Run(app, Run(app, c, a), b)
    decreases |a|
  {
    if a == [] {
      assert a + b == b;
    } else {
      assert (a + b)[1..] == a[1..] + b;
      RunAppend(app, EventStep(app, c, a[0]), a[1..], b);
    }
  }

  lemma {:induction false} RunCons<S>(app: App<S>, c: Conn<S>, e: Event, events: seq<Event>)
    ensures Run(app, c, [e] + events) == Run(app, EventStep(app, c, e), events)
  {
    hide EventStep;
    assert ([e] + events)[1..] == events;
  }

  lemma {:induction false} RequestStep<S>(app: App<S>, c: Conn<S>)
    requires |c.fields| == |c.values|
    ensures FoldLeft2(map[], c.fields, c.values).Some?
    ensures var req := Req(c.url, FoldLeft2(map[], c.fields, c.values).value);
            EventStep(app, c, HeadersComplete) == RunOps(c, ToRequest(req), app.request(c.user, req))
  {
    hide RunOps;
    FoldLeft2Defined(map[], c.fields, c.values);
  }

  /** The closure record made for one connection, with the references it captures. */
  class Callbacks<S> {
    const app: App<S>
    const res: ResT
    var url: string
    var fields: seq<string>
    var values: seq<string>
    var user: S
    ghost var ops: seq<Op>
    ghost var log: seq<Delivery>

    ghost function State(): Conn<S>
      reads this, res
    {
      Conn(url, fields, values, user, res.State(), res.calls, ops, log)
    }

    constructor (app: App<S>, user: S, res: ResT)
      requires res.State() == INITIAL && res.calls == []
      ensures this.app == app && this.res == res && State() == Fresh(user)
    {
      this.app, this.user, this.res := app, user, res;
      url, fields, values := "", [], [];
      ops, log := [], [];
    }

    method Deliver(ghost d: Delivery, result: (S, seq<Op>))
      modifies this, res
      ensures State() == RunOps(old(State()), d, result)
    {
      user := result.0;
      res.PerformAll(result.1);
      ops, log := ops + result.1, log + [d];
    }

    /** `ok` is false when `fold_left2` raises. */
    method OnHeadersComplete() returns (ok: bool)
      modifies this, res
      ensures State() == HeadersCompleteStep(app, old(State()))
      ensures ok <==> |old(fields)| == |old(values)|
    {
      FoldLeft2Defined(map[], fields, values);
      var headers := FoldLeft2(map[], fields, values);
      if headers.None? {
        log := log + [Raised];
        return false;
      }
      var req := Req(url, headers.value);
      Deliver(ToRequest(req), app.request(user, req));
      return true;
    }

    method OnBody(text: string)
      modifies this, res
      ensures State() == BodyStep(app, old(State()), text)
    {
      var h := res.onData;
      Deliver(ToData(h, text), if h.Ignore? then (user, []) else app.data(user, h.id, text));
    }

    method OnMessageComplete()
      modifies this, res
      ensures State() == MessageCompleteStep(app, old(State()))
    {
      var h := res.onEnd;
      Deliver(ToEnd(h), if h.Ignore? then (user, []) else app.end(user, h.id));
    }

    /** The parser's dispatch to the settings record; `ok` is false when an exception leaves the callback. */
    method Handle(e: Event) returns (ok: bool)
      modifies this, res
      ensures State() == EventStep(app, old(State()), e)
      ensures ok == !Raises(old(State()), e)
    {
      ok := true;
      match e
      case MessageBegin =>
      case Url(u) => url := u;
      case Status(_) =>
      case HeaderField(f) => fields := [f] + fields;
      case HeaderValue(v) => values := [v] + values;
      case HeadersComplete => ok := OnHeadersComplete();
      case Body(text) => OnBody(text);
      case MessageComplete => OnMessageComplete();
    }
  }

  // ---------------------------------------------------------------- the header map

  /** `fold_left2` is defined exactly on lists of one length. */
  lemma {:induction false} FoldLeft2Defined(m: StringMap, fs: seq<string>, vs: seq<string>)
    ensures FoldLeft2(m, fs, vs).Some? <==> |fs| == |vs|
    decreases |fs|
  {
    if fs != [] && vs != [] {
      FoldLeft2Defined(m[fs[0] := vs[0]], fs[1..], vs[1..]);
    }
  }

  /** Line `i` is the first one with its name. */
  predicate IsFirst(lines: seq<(string, string)>, i: int) {
    0 <= i < |lines| && forall j :: 0 <= j < i ==> lines[j].0 != lines[i].0
  }

  /** The map that has exactly the names of `lines`, each bound to the value of its first line. */
  ghost predicate BindsFirst(m: StringMap, lines: seq<(string, string)>) {
    && (forall k :: k in m <==> exists i :: 0 <= i < |lines| && lines[i].0 == k)
    && (forall i :: IsFirst(lines, i) ==> lines[i].0 in m && m[lines[i].0] == lines[i].1)
  }

  lemma {:induction false} SameBinding(m: StringMap, m': StringMap, lines: seq<(string, string)>, k: string)
    requires BindsFirst(m, lines) && BindsFirst(m', lines) && k in m
    ensures k in m' && m[k] == m'[k]
  {
    var i :| 0 <= i < |lines| && lines[i].0 == k;
    var f := FirstLine(lines, k, i);
    hide IsFirst;
    assert m[lines[f].0] == lines[f].1 && m'[lines[f].0] == lines[f].1;
  }

  /** There is only one such map. */
  lemma {:induction false} BindsFirstUnique(m: StringMap, m': StringMap, lines: seq<(string, string)>)
    requires BindsFirst(m, lines) && BindsFirst(m', lines)
    ensures m == m'
  {
    hide BindsFirst;
    forall k | k in m ensures k in m' && m[k] == m'[k] {
      SameBinding(m, m', lines, k);
    }
    forall k | k in m' ensures k in m {
      SameBinding(m', m, lines, k);
    }
  }

  lemma {:induction false} FirstLine(lines: seq<(string, string)>, k: string, i: nat) returns (f: nat)
    requires i < |lines| && lines[i].0 == k
    ensures IsFirst(lines, f) && lines[f].0 == k
    decreases i
  {
    if j :| 0 <= j < i && lines[j].0 == k {
      f := FirstLine(lines, k, j);
    } else {
      f := i;
    }
  }

  /** The accumulators after `lines`: latest element first. */
  function Fields(lines: seq<(string, string)>): (r: seq<string>)
    ensures |r| == |lines|
  {
    if lines == [] then [] else [lines[|lines| - 1].0] + Fields(lines[..|lines| - 1])
  }

  function Values(lines: seq<(string, string)>): (r: seq<string>)
    ensures |r| == |lines|
  {
    if lines == [] then [] else [lines[|lines| - 1].1] + Values(lines[..|lines| - 1])
  }

  /** Folding the reversed lists lets earlier lines overwrite later ones, so the first one wins. */
  lemma {:induction false} FoldOfLines(m: StringMap, lines: seq<(string, string)>)
    ensures FoldLeft2(m, Fields(lines), Values(lines)) == Some(m + FieldMap(lines))
    decreases |lines|
  {
    if lines == [] {
      assert m + map[] == m;
    } else {
      var init, last := lines[..|lines| - 1], lines[|lines| - 1];
      FoldOfLines(m[last.0 := last.1], init);
      assert lines == init + [last];
      FieldMapSnoc(init, last);
      assert m[last.0 := last.1] + FieldMap(init) == m + (map[last.0 := last.1] + FieldMap(init));
    }
  }

  lemma {:induction false} FieldMapNames(lines: seq<(string, string)>, k: string)
    ensures k in FieldMap(lines) <==> exists i :: 0 <= i < |lines| && lines[i].0 == k
  {
    if lines != [] {
      var rest := lines[1..];
      FieldMapNames(rest, k);
      if i :| 0 <= i < |rest| && rest[i].0 == k {
        assert lines[i + 1].0 == k;
      }
      if i :| 0 < i < |lines| && lines[i].0 == k {
        assert rest[i - 1].0 == k;
      }
    }
  }

  lemma {:induction false} FieldMapValue(lines: seq<(string, string)>, i: int)
    requires IsFirst(lines, i)
    ensures lines[i].0 in FieldMap(lines) && FieldMap(lines)[lines[i].0] == lines[i].1
    decreases |lines|
  {
    if i > 0 {
      var rest := lines[1..];
      assert rest[i - 1] == lines[i] && lines[0].0 != lines[i].0;
      forall j | 0 <= j < i - 1 ensures rest[j].0 != rest[i - 1].0 {
        assert rest[j] == lines[j + 1];
      }
      FieldMapValue(rest, i - 1);
    }
  }

  /** The map of all lines has exactly their names, and the first line with a name gives its value. */
  lemma {:induction false} FieldMapBindsFirst(lines: seq<(string, string)>)
    ensures BindsFirst(FieldMap(lines), lines)
  {
    hide FieldMap, IsFirst;
    forall k ensures k in FieldMap(lines) <==> exists i :: 0 <= i < |lines| && lines[i].0 == k {
      FieldMapNames(lines, k);
    }
    forall i | IsFirst(lines, i) ensures 0 <= i < |lines|
      && lines[i].0 in FieldMap(lines) && FieldMap(lines)[lines[i].0] == lines[i].1 {
      IsFirstInRange(lines, i);
      FieldMapValue(lines, i);
    }
  }

  lemma {:induction false} IsFirstInRange(lines: seq<(string, string)>, i: int)
    requires IsFirst(lines, i)
    ensures 0 <= i < |lines|
  {
  }
}
