/** Header lines and URLs that arrive in pieces. The callbacks do not join pieces: this is exactly when
    a request is lost by it, and what user code is told when it is not. */
module HeaderPieces {
  import opened Text
  import opened HeaderBlock
  import opened RequestParser
  import opened RequestLaws

  // ---------------------------------------------------------------- when fold_left2 raises

  /** How many more field callbacks than value callbacks. */
  function Surplus(events: seq<Event>): int
    decreases |events|
  {
    if events == [] then 0
    else (if events[0].HeaderField? then 1 else if events[0].HeaderValue? then -1 else 0) + Surplus(events[1..])
  }

  lemma {:induction false} SurplusAppend(a: seq<Event>, b: seq<Event>)
    ensures Surplus(a + b) == Surplus(a) + Surplus(b)
  {
    if a == [] {
      assert a + b == b;
    } else {
      assert (a + b)[1..] == a[1..] + b;
      SurplusAppend(a[1..], b);
    }
  }

  /** Callback `i` completes headers, and the fields collected up to then, those in `a` before the trace
      included, are not as many as the values. */
  predicate Unbalanced(a: Acc, events: seq<Event>, i: int) {
    0 <= i < |events| && events[i].HeadersComplete? && |a.fields| - |a.values| + Surplus(events[..i]) != 0
  }

  lemma {:induction false} DueRaises(a: Acc, e: Event)
    ensures Failed in Due(a, e) <==> e.HeadersComplete? && |a.fields| != |a.values|
    ensures var a' := Collect(a, e); |a'.fields| - |a'.values| == |a.fields| - |a.values| + Surplus([e])
  {
    FoldLeft2Defined(map[], a.fields, a.values);
    assert Surplus([e][1..]) == 0;
  }

  lemma {:induction false} UnbalancedNow(a: Acc, e: Event, events: seq<Event>)
    ensures Unbalanced(a, [e] + events, 0) <==> Failed in Due(a, e)
  {
    hide Due;
    DueRaises(a, e);
    assert ([e] + events)[..0] == [];
  }

  lemma {:induction false} UnbalancedLater(a: Acc, e: Event, events: seq<Event>, i: nat)
    requires i < |events|
    ensures Unbalanced(a, [e] + events, i + 1) <==> Unbalanced(Collect(a, e), events, i)
  {
    hide Due, Collect;
    var prefix := ([e] + events)[..i + 1];
    assert prefix[0] == e && prefix[1..] == events[..i];
    assert Surplus([e][1..]) == 0;
    assert ([e] + events)[i + 1] == events[i];
    DueRaises(a, e);
  }

  /** `fold_left2` raises in a trace exactly when at some end of headers the field callbacks so far,
      of this message and all earlier ones, are not as many as the value callbacks. */
  lemma {:induction false} RaisesIff(a: Acc, events: seq<Event>)
    ensures Failed in AllDue(a, events) <==> exists i :: Unbalanced(a, events, i)
    decreases |events|
  {
    if events != [] {
      hide Due, Collect;
      var e, rest := events[0], events[1..];
      var a' := Collect(a, e);
      assert events == [e] + rest;
      UnbalancedNow(a, e, rest);
      RaisesIff(a', rest);
      if i :| Unbalanced(a, events, i) && i > 0 {
        UnbalancedLater(a, e, rest, i - 1);
      }
      if i :| Unbalanced(a', rest, i) {
        UnbalancedLater(a, e, rest, i);
      }
    }
  }

  // ---------------------------------------------------------------- what any trace delivers

  /** The texts of the field callbacks, in order. */
  function FieldTexts(events: seq<Event>): seq<string>
    decreases |events|
  {
    if events == [] then []
    else if events[0].HeaderField? then [events[0].text] + FieldTexts(events[1..])
    else FieldTexts(events[1..])
  }

  function ValueTexts(events: seq<Event>): seq<string>
    decreases |events|
  {
    if events == [] then []
    else if events[0].HeaderValue? then [events[0].text] + ValueTexts(events[1..])
    else ValueTexts(events[1..])
  }

  function LastUrlOf(url: string, events: seq<Event>): string
    decreases |events|
  {
    if events == [] then url else LastUrlOf(if events[0].Url? then events[0].text else url, events[1..])
  }

  /** Text `k` of one list beside text `k` of the other. */
  function Zip(fields: seq<string>, values: seq<string>): (lines: seq<(string, string)>)
    requires |fields| == |values|
    ensures |lines| == |fields|
    ensures forall k :: 0 <= k < |fields| ==> lines[k] == (fields[k], values[k])
  {
    seq(|fields|, k requires 0 <= k < |fields| => (fields[k], values[k]))
  }

  /** The accumulators have the latest text first. */
  lemma {:induction false} ReverseOfZip(fields: seq<string>, values: seq<string>)
    requires |fields| == |values|
    ensures Fields(Zip(fields, values)) == Reverse(fields) && Values(Zip(fields, values)) == Reverse(values)
    decreases |fields|
  {
    if fields != [] {
      var n := |fields| - 1;
      ReverseOfZip(fields[..n], values[..n]);
      assert Zip(fields, values)[..n] == Zip(fields[..n], values[..n]);
      assert fields == fields[..n] + [fields[n]] && values == values[..n] + [values[n]];
      ReverseSnoc(fields[..n], fields[n]);
      ReverseSnoc(values[..n], values[n]);
    }
  }

  lemma {:induction false} Collected(fields: seq<string>, values: seq<string>, url: string, events: seq<Event>)
    ensures CollectAll(Acc(url, Reverse(fields), Reverse(values)), events) ==
            Acc(LastUrlOf(url, events), Reverse(fields + FieldTexts(events)), Reverse(values + ValueTexts(events)))
    decreases |events|
  {
    hide Reverse;
    if events == [] {
      assert fields + [] == fields && values + [] == values;
    } else {
      var a, rest := Acc(url, Reverse(fields), Reverse(values)), events[1..];
      match events[0] {
        case HeaderField(f) =>
          ReverseSnoc(fields, f);
          Collected(fields + [f], values, url, rest);
          Associative(fields, [f], FieldTexts(rest));
        case HeaderValue(v) =>
          ReverseSnoc(values, v);
          Collected(fields, values + [v], url, rest);
          Associative(values, [v], ValueTexts(rest));
        case Url(u) => Collected(fields, values, u, rest);
        case _ => Collected(fields, values, url, rest);
      }
    }
  }

  /** What user code is told when headers are complete after these callbacks on a new connection: field
      text `k` is the name of value text `k`, whichever lines they belong to. */
  function HeadersNotice(before: seq<Event>): Notice {
    var fields, values := FieldTexts(before), ValueTexts(before);
    if |fields| == |values| then Requested(Req(LastUrlOf("", before), FieldMap(Zip(fields, values)))) else Failed
  }

  lemma {:induction false} DueAfter(before: seq<Event>)
    ensures Due(CollectAll(EMPTY, before), HeadersComplete) == [HeadersNotice(before)]
  {
    hide FieldTexts, ValueTexts, LastUrlOf, CollectAll, Fields, Values, FieldMap, FoldLeft2, Zip;
    var fields, values := FieldTexts(before), ValueTexts(before);
    Collected([], [], "", before);
    assert [] + fields == fields && [] + values == values;
    FoldLeft2Defined(map[], Reverse(fields), Reverse(values));
    if |fields| == |values| {
      ReverseOfZip(fields, values);
      FoldOfLines(map[], Zip(fields, values));
      assert map[] + FieldMap(Zip(fields, values)) == FieldMap(Zip(fields, values));
    }
  }

  /** For every trace of callbacks on a connection, however its names and values are cut and whatever
      messages came before: the next request is told as `HeadersNotice` says. */
  lemma {:induction false} AnyHeaders<S>(app: App<S>, user: S, before: seq<Event>)
    ensures var c := Run(app, Fresh(user), before + [HeadersComplete]);
            && Notices(c.log) == AllDue(EMPTY, before) + [HeadersNotice(before)]
            && Faithful(app, user, c)
  {
    hide Faithful, Run, HeadersNotice, Due;
    ExactlyOnceInOrder(app, user, before + [HeadersComplete]);
    DueAppend(EMPTY, before, [HeadersComplete]);
    DueAfter(before);
    var a := CollectAll(EMPTY, before);
    assert AllDue(a, [HeadersComplete]) == Due(a, HeadersComplete) + [];
  }

  // ---------------------------------------------------------------- lines in pieces

  /** A header line as it arrives: the pieces of its name, then those of its value. */
  datatype Line = Line(names: seq<string>, values: seq<string>)

  function FieldEvents(texts: seq<string>): seq<Event> {
    if texts == [] then [] else [HeaderField(texts[0])] + FieldEvents(texts[1..])
  }

  function ValueEvents(texts: seq<string>): seq<Event> {
    if texts == [] then [] else [HeaderValue(texts[0])] + ValueEvents(texts[1..])
  }

  function PieceEvents(lines: seq<Line>): seq<Event> {
    if lines == [] then []
    else FieldEvents(lines[0].names) + (ValueEvents(lines[0].values) + PieceEvents(lines[1..]))
  }

  function NamePieces(lines: seq<Line>): seq<string> {
    if lines == [] then [] else lines[0].names + NamePieces(lines[1..])
  }

  function ValuePieces(lines: seq<Line>): seq<string> {
    if lines == [] then [] else lines[0].values + ValuePieces(lines[1..])
  }

  /** The lines that were sent. */
  function Joined(lines: seq<Line>): seq<(string, string)> {
    if lines == [] then [] else [(Concat(lines[0].names), Concat(lines[0].values))] + Joined(lines[1..])
  }

  /** No line was cut. */
  predicate Whole(lines: seq<Line>) {
    forall l :: l in lines ==> |l.names| == 1 && |l.values| == 1
  }

  lemma {:induction false} TextsAppend(a: seq<Event>, b: seq<Event>, url: string)
    ensures FieldTexts(a + b) == FieldTexts(a) + FieldTexts(b) && ValueTexts(a + b) == ValueTexts(a) + ValueTexts(b)
    ensures LastUrlOf(url, a + b) == LastUrlOf(LastUrlOf(url, a), b)
    decreases |a|
  {
    if a == [] {
      assert a + b == b;
    } else {
      assert (a + b)[1..] == a[1..] + b;
      TextsAppend(a[1..], b, if a[0].Url? then a[0].text else url);
    }
  }

  lemma {:induction false} TextsOfFields(texts: seq<string>, url: string)
    ensures FieldTexts(FieldEvents(texts)) == texts && ValueTexts(FieldEvents(texts)) == []
    ensures LastUrlOf(url, FieldEvents(texts)) == url
    decreases |texts|
  {
    if texts != [] {
      assert FieldEvents(texts)[1..] == FieldEvents(texts[1..]);
      TextsOfFields(texts[1..], url);
    }
  }

  lemma {:induction false} TextsOfValues(texts: seq<string>, url: string)
    ensures ValueTexts(ValueEvents(texts)) == texts && FieldTexts(ValueEvents(texts)) == []
    ensures LastUrlOf(url, ValueEvents(texts)) == url
    decreases |texts|
  {
    if texts != [] {
      assert ValueEvents(texts)[1..] == ValueEvents(texts[1..]);
      TextsOfValues(texts[1..], url);
    }
  }

  lemma {:induction false} TextsOfPieces(lines: seq<Line>, url: string)
    ensures FieldTexts(PieceEvents(lines)) == NamePieces(lines) && ValueTexts(PieceEvents(lines)) == ValuePieces(lines)
    ensures LastUrlOf(url, PieceEvents(lines)) == url
    decreases |lines|
  {
    if lines != [] {
      hide FieldTexts, ValueTexts, LastUrlOf, FieldEvents, ValueEvents;
      var f, v, rest := FieldEvents(lines[0].names), ValueEvents(lines[0].values), PieceEvents(lines[1..]);
      var names, values := NamePieces(lines[1..]), ValuePieces(lines[1..]);
      assert [] + names == names && [] + (lines[0].values + values) == lines[0].values + values;
      TextsOfPieces(lines[1..], url);
      TextsOfFields(lines[0].names, url);
      TextsOfValues(lines[0].values, url);
      TextsAppend(v, rest, url);
      TextsAppend(f, v + rest, url);
    }
  }

  lemma {:induction false} TextsOfUrls(urls: seq<string>, url: string)
    ensures FieldTexts(UrlEvents(urls)) == [] && ValueTexts(UrlEvents(urls)) == []
    ensures LastUrlOf(url, UrlEvents(urls)) == LastUrl(url, urls)
    decreases |urls|
  {
    if urls != [] {
      var events := UrlEvents(urls);
      assert events[0] == Url(urls[0]) && events[1..] == UrlEvents(urls[1..]);
      TextsOfUrls(urls[1..], urls[0]);
      assert LastUrl(urls[0], urls[1..]) == LastUrl(url, urls);
    }
  }

  /** The callbacks of a message up to the end of its headers. */
  function HeadEvents(urls: seq<string>, lines: seq<Line>): seq<Event> {
    [MessageBegin] + (UrlEvents(urls) + PieceEvents(lines))
  }

  lemma {:induction false} TextsOfHead(urls: seq<string>, lines: seq<Line>)
    ensures FieldTexts(HeadEvents(urls, lines)) == NamePieces(lines)
    ensures ValueTexts(HeadEvents(urls, lines)) == ValuePieces(lines)
    ensures LastUrlOf("", HeadEvents(urls, lines)) == LastUrl("", urls)
  {
    var events := UrlEvents(urls) + PieceEvents(lines);
    assert HeadEvents(urls, lines)[1..] == events;
    TextsAppend(UrlEvents(urls), PieceEvents(lines), "");
    TextsOfUrls(urls, "");
    TextsOfPieces(lines, LastUrl("", urls));
  }

  lemma {:induction false} NothingDue(a: Acc, events: seq<Event>)
    requires Quiet(events)
    ensures AllDue(a, events) == []
    decreases |events|
  {
    if events != [] {
      NothingDue(Collect(a, events[0]), events[1..]);
    }
  }

  lemma {:induction false} QuietTexts(texts: seq<string>)
    ensures Quiet(FieldEvents(texts)) && Quiet(ValueEvents(texts))
  {
    if texts != [] {
      QuietTexts(texts[1..]);
    }
  }

  lemma {:induction false} QuietPieces(lines: seq<Line>)
    ensures Quiet(PieceEvents(lines))
  {
    if lines != [] {
      QuietTexts(lines[0].names);
      QuietTexts(lines[0].values);
      QuietPieces(lines[1..]);
    }
  }

  /** The first request of a connection when its lines arrive in any pieces: user code is told the map
      that pairs the pieces one by one, or nothing because `fold_left2` raises. */
  lemma {:induction false} PiecesTold<S>(app: App<S>, user: S, urls: seq<string>, lines: seq<Line>)
    ensures var c := Run(app, Fresh(user), HeadEvents(urls, lines) + [HeadersComplete]);
            var names, values := NamePieces(lines), ValuePieces(lines);
            && Notices(c.log) == (if |names| == |values|
                                  then [Requested(Req(LastUrl("", urls), FieldMap(Zip(names, values))))]
                                  else [Failed])
            && Faithful(app, user, c)
  {
    hide Faithful, Run;
    var head := HeadEvents(urls, lines);
    AnyHeaders(app, user, head);
    TextsOfHead(urls, lines);
    QuietHeaders(urls, []);
    QuietPieces(lines);
    NothingDue(EMPTY, head);
    assert [] + [HeadersNotice(head)] == [HeadersNotice(head)];
  }

  /** Each line comes in at least one piece of a name and one of a value. */
  predicate Arrived(lines: seq<Line>) {
    forall l :: l in lines ==> |l.names| >= 1 && |l.values| >= 1
  }

  lemma {:induction false} PiecesCounted(lines: seq<Line>)
    requires Arrived(lines)
    ensures |NamePieces(lines)| >= |lines| && |ValuePieces(lines)| >= |lines|
    ensures |NamePieces(lines)| == |lines| == |ValuePieces(lines)| <==> Whole(lines)
  {
    if lines != [] {
      var first, rest := lines[0], lines[1..];
      assert lines == [first] + rest && first in lines;
      PiecesCounted(rest);
    }
  }

  lemma {:induction false} OnePiece(parts: seq<string>)
    requires |parts| == 1
    ensures parts == [Concat(parts)]
  {
    assert Concat(parts) == parts[0] + Concat(parts[1..]);
    assert parts[0] + "" == parts[0];
  }

  lemma {:induction false} WholeJoined(lines: seq<Line>)
    requires Whole(lines)
    ensures |NamePieces(lines)| == |ValuePieces(lines)| && Zip(NamePieces(lines), ValuePieces(lines)) == Joined(lines)
  {
    if lines != [] {
      var first, rest := lines[0], lines[1..];
      assert first in lines && Whole(rest);
      WholeJoined(rest);
      OnePiece(first.names);
      OnePiece(first.values);
      var names, values := NamePieces(rest), ValuePieces(rest);
      assert NamePieces(lines) == [Concat(first.names)] + names;
      assert ValuePieces(lines) == [Concat(first.values)] + values;
      assert Zip(NamePieces(lines), ValuePieces(lines)) ==
             [(Concat(first.names), Concat(first.values))] + Zip(names, values);
    }
  }

  lemma {:induction false} JoinedLength(lines: seq<Line>)
    ensures |Joined(lines)| == |lines|
  {
    if lines != [] {
      JoinedLength(lines[1..]);
    }
  }

  /** The pieces pair up to the lines that were sent exactly when no line was cut. */
  lemma {:induction false} PiecesAreLinesIff(lines: seq<Line>)
    requires Arrived(lines)
    ensures var names, values := NamePieces(lines), ValuePieces(lines);
            (|names| == |values| && Zip(names, values) == Joined(lines)) <==> Whole(lines)
  {
    PiecesCounted(lines);
    JoinedLength(lines);
    if Whole(lines) {
      WholeJoined(lines);
    }
  }

  /** When no line was cut, user code is told the lines that were sent, each name with its first value. */
  lemma {:induction false} WholeLinesTold<S>(app: App<S>, user: S, urls: seq<string>, lines: seq<Line>)
    requires Whole(lines)
    ensures var c := Run(app, Fresh(user), HeadEvents(urls, lines) + [HeadersComplete]);
            && Notices(c.log) == [Requested(Req(LastUrl("", urls), FieldMap(Joined(lines))))]
            && BindsFirst(FieldMap(Joined(lines)), Joined(lines)) && Faithful(app, user, c)
  {
    hide Faithful, Run, BindsFirst;
    PiecesTold(app, user, urls, lines);
    WholeJoined(lines);
    FieldMapBindsFirst(Joined(lines));
  }

  // ---------------------------------------------------------------- the map told and the map sent

  /** The number of characters in all texts. */
  function Total(texts: seq<string>): nat {
    if texts == [] then 0 else |texts[0]| + Total(texts[1..])
  }

  lemma {:induction false} TotalAppend(a: seq<string>, b: seq<string>)
    ensures Total(a + b) == Total(a) + Total(b)
  {
    if a == [] {
      assert a + b == b;
    } else {
      assert (a + b)[1..] == a[1..] + b;
      TotalAppend(a[1..], b);
    }
  }

  lemma {:induction false} TotalOfConcat(parts: seq<string>)
    ensures |Concat(parts)| == Total(parts)
  {
    if parts != [] {
      TotalOfConcat(parts[1..]);
    }
  }

  predicate Distinct(texts: seq<string>) {
    forall i, j :: 0 <= i < j < |texts| ==> texts[i] != texts[j]
  }

  /** Different texts that all occur among non-empty pieces, of as many characters, are as many as they. */
  lemma {:induction false} SameNumber(texts: seq<string>, pieces: seq<string>)
    requires Distinct(texts) && (forall x :: x in texts ==> x in pieces) && "" !in pieces
    requires Total(texts) == Total(pieces)
    ensures |texts| == |pieces|
  {
    if texts != [] {
      var x, rest := texts[0], texts[1..];
      assert x in texts;
      var i :| 0 <= i < |pieces| && pieces[i] == x;
      var before, after := pieces[..i], pieces[i + 1..];
      assert pieces == before + ([x] + after);
      TotalAppend(before, [x] + after);
      TotalAppend(before, after);
      assert ([x] + after)[1..] == after;
      forall y | y in rest ensures y in before + after {
        var j :| 0 <= j < |rest| && rest[j] == y;
        assert texts[j + 1] == y && y in texts && texts[0] != texts[j + 1];
        assert y in before + ([x] + after) && y != x;
      }
      SameNumber(rest, before + after);
    }
  }

  /** The names that were sent. */
  function Names(lines: seq<Line>): (names: seq<string>)
    ensures |names| == |lines|
  {
    if lines == [] then [] else [Concat(lines[0].names)] + Names(lines[1..])
  }

  lemma {:induction false} TotalOfNames(lines: seq<Line>)
    ensures Total(Names(lines)) == Total(NamePieces(lines))
  {
    if lines != [] {
      TotalOfNames(lines[1..]);
      TotalOfConcat(lines[0].names);
      TotalAppend(lines[0].names, NamePieces(lines[1..]));
    }
  }

  lemma {:induction false} NamesOfJoined(lines: seq<Line>, k: string)
    ensures k in FieldMap(Joined(lines)) <==> k in Names(lines)
  {
    if lines != [] {
      NamesOfJoined(lines[1..], k);
      assert Joined(lines)[1..] == Joined(lines[1..]);
      assert k in Names(lines) <==> k == Concat(lines[0].names) || k in Names(lines[1..]);
    }
  }

  lemma {:induction false} NamesOfZip(names: seq<string>, values: seq<string>, k: string)
    requires |names| == |values|
    ensures k in FieldMap(Zip(names, values)) <==> k in names
  {
    FieldMapNames(Zip(names, values), k);
    if i :| 0 <= i < |names| && names[i] == k {
      assert Zip(names, values)[i].0 == k;
    }
  }

  /** When the names sent are different, and none is empty, the pieces give the map of the lines sent
      exactly when no line was cut. */
  lemma {:induction false} PiecesMapIff(lines: seq<Line>)
    requires Arrived(lines) && Distinct(Names(lines)) && "" !in Names(lines)
    ensures var names, values := NamePieces(lines), ValuePieces(lines);
            (|names| == |values| && FieldMap(Zip(names, values)) == FieldMap(Joined(lines))) <==> Whole(lines)
  {
    hide FieldMap, Joined, Zip, Whole, Names, Distinct, Arrived;
    var names, values := NamePieces(lines), ValuePieces(lines);
    PiecesCounted(lines);
    if Whole(lines) {
      WholeJoined(lines);
    } else if |names| == |values| && FieldMap(Zip(names, values)) == FieldMap(Joined(lines)) {
      forall k ensures k in names <==> k in Names(lines) {
        NamesOfZip(names, values, k);
        NamesOfJoined(lines, k);
      }
      TotalOfNames(lines);
      SameNumber(Names(lines), names);
    }
  }

  /** For such lines, user code is told the request that was sent exactly when no line was cut. */
  lemma {:induction false} SentTold<S>(app: App<S>, user: S, urls: seq<string>, lines: seq<Line>)
    requires Arrived(lines) && Distinct(Names(lines)) && "" !in Names(lines)
    ensures var c := Run(app, Fresh(user), HeadEvents(urls, lines) + [HeadersComplete]);
            Notices(c.log) == [Requested(Req(LastUrl("", urls), FieldMap(Joined(lines))))] <==> Whole(lines)
  {
    hide Run, FieldMap, Joined, Zip, Whole, Names, Distinct, Arrived;
    PiecesTold(app, user, urls, lines);
    PiecesMapIff(lines);
  }

  lemma {:induction false} PiecesAppend(a: seq<Line>, b: seq<Line>)
    ensures NamePieces(a + b) == NamePieces(a) + NamePieces(b)
    ensures ValuePieces(a + b) == ValuePieces(a) + ValuePieces(b)
    ensures Joined(a + b) == Joined(a) + Joined(b)
  {
    hide Concat;
    if a == [] {
      assert a + b == b;
    } else {
      var first, rest := a[0], a[1..];
      assert (a + b)[0] == first && (a + b)[1..] == rest + b;
      PiecesAppend(rest, b);
      Associative(first.names, NamePieces(rest), NamePieces(b));
      Associative(first.values, ValuePieces(rest), ValuePieces(b));
      Associative([(Concat(first.names), Concat(first.values))], Joined(rest), Joined(b));
    }
  }

  lemma {:induction false} Covered(lines: seq<(string, string)>, more: seq<(string, string)>)
    requires forall i :: 0 <= i < |more| ==> more[i].0 in FieldMap(lines)
    ensures FieldMap(lines + more) == FieldMap(lines)
  {
    FieldMapAppend(lines, more);
    forall k | k in FieldMap(more) ensures k in FieldMap(lines) {
      FieldMapNames(more, k);
    }
  }

  lemma {:induction false} TwoPieces(n1: string, n2: string, v1: string, v2: string)
    ensures var lines := [Line([n1, n2], [v1, v2])];
            && NamePieces(lines) == [n1, n2] && ValuePieces(lines) == [v1, v2]
            && Joined(lines) == [(n1 + n2, v1 + v2)]
  {
    var lines := [Line([n1, n2], [v1, v2])];
    assert lines[1..] == [];
    assert [n1, n2] + [] == [n1, n2] && [v1, v2] + [] == [v1, v2];
    OnePiece([n2]);
    OnePiece([v2]);
    assert [n1, n2][1..] == [n2] && [v1, v2][1..] == [v2];
  }

  /** Names sent twice can hide a cut, so that different names are needed above: a second line of a name
      whose two pieces are names of earlier lines, too. */
  lemma {:induction false} HiddenCut(lines: seq<Line>, n1: string, n2: string, v1: string, v2: string)
    requires Whole(lines) && n1 in Names(lines) && n2 in Names(lines) && n1 + n2 in Names(lines)
    ensures var all := lines + [Line([n1, n2], [v1, v2])];
            var names, values := NamePieces(all), ValuePieces(all);
            !Whole(all) && |names| == |values| && FieldMap(Zip(names, values)) == FieldMap(Joined(all))
  {
    hide FieldMap, Joined, Names, NamePieces, ValuePieces;
    var cut := Line([n1, n2], [v1, v2]);
    assert cut in lines + [cut];
    WholeJoined(lines);
    PiecesAppend(lines, [cut]);
    TwoPieces(n1, n2, v1, v2);
    NamesOfJoined(lines, n1);
    NamesOfJoined(lines, n2);
    NamesOfJoined(lines, n1 + n2);
    Covered(Joined(lines), [(n1, v1), (n2, v2)]);
    Covered(Joined(lines), [(n1 + n2, v1 + v2)]);
    assert Zip(NamePieces(lines + [cut]), ValuePieces(lines + [cut])) == Joined(lines) + [(n1, v1), (n2, v2)];
  }

  // ---------------------------------------------------------------- cut values, and silent mispairing

  /** When only values are cut, the request is lost as soon as one of them is. */
  lemma {:induction false} SplitValueRaises<S>(app: App<S>, user: S, urls: seq<string>, lines: seq<Line>)
    requires Arrived(lines) && forall l :: l in lines ==> |l.names| == 1
    ensures var c := Run(app, Fresh(user), HeadEvents(urls, lines) + [HeadersComplete]);
            Notices(c.log) == [Failed] <==> !Whole(lines)
  {
    hide Run;
    PiecesTold(app, user, urls, lines);
    PiecesCounted(lines);
    WholeNames(lines);
  }

  lemma {:induction false} WholeNames(lines: seq<Line>)
    requires forall l :: l in lines ==> |l.names| == 1
    ensures |NamePieces(lines)| == |lines|
  {
    if lines != [] {
      assert lines[0] in lines;
      WholeNames(lines[1..]);
    }
  }

  /** A line whose name and value are both cut is not lost: user code is told two headers that were not
      sent, and the one that was sent only if a piece of its name is empty. */
  lemma {:induction false} SilentMispairing<S>(app: App<S>, user: S, n1: string, n2: string, v1: string, v2: string)
    ensures var c := Run(app, Fresh(user), HeadEvents([], [Line([n1, n2], [v1, v2])]) + [HeadersComplete]);
            var m := map[n2 := v2][n1 := v1];
            && Notices(c.log) == [Requested(Req("", m))]
            && (n1 + n2 in m <==> n1 == "" || n2 == "")
            && Faithful(app, user, c)
  {
    hide Faithful, Run;
    var lines := [Line([n1, n2], [v1, v2])];
    var m := map[n2 := v2][n1 := v1];
    PiecesTold(app, user, [], lines);
    assert lines[1..] == [];
    assert NamePieces(lines) == [n1, n2] + [] && ValuePieces(lines) == [v1, v2] + [];
    assert NamePieces(lines) == [n1, n2] && ValuePieces(lines) == [v1, v2];
    var zip := [(n1, v1), (n2, v2)];
    assert Zip([n1, n2], [v1, v2]) == zip;
    assert zip[1..] == [(n2, v2)] && zip[1..][1..] == [];
    assert FieldMap(zip[1..]) == map[n2 := v2];
    assert FieldMap(zip) == m;
    assert n1 + n2 in m <==> n1 == "" || n2 == "" by {
      assert |n1 + n2| == |n1| + |n2|;
      assert n1 == "" ==> n1 + n2 == n2;
      assert n2 == "" ==> n1 + n2 == n1;
    }
  }

  // ---------------------------------------------------------------- URLs in pieces

  /** The last piece is the whole text exactly when the pieces before it are empty. */
  lemma {:induction false} LastIsWholeIff(parts: seq<string>)
    requires parts != []
    ensures parts[|parts| - 1] == Concat(parts) <==> forall i :: 0 <= i < |parts| - 1 ==> parts[i] == ""
  {
    var init, last := parts[..|parts| - 1], parts[|parts| - 1];
    assert parts == init + [last];
    ConcatAppend(init, [last]);
    assert Concat([last]) == last + Concat([last][1..]);
    assert Concat(parts) == Concat(init) + last;
    ConcatEmpty(init);
    if last == Concat(parts) {
      assert |Concat(init)| == 0;
    }
  }

  /** Request `n` of a connection has the URL that was sent exactly when the pieces before the last one
      are empty; without any piece it has the URL of the request before, and the first one none. */
  lemma {:induction false} UrlTold<S>(app: App<S>, user: S, msgs: seq<Message>, n: nat)
    requires n < |msgs|
    ensures var c := Run(app, Fresh(user), Trace(msgs));
            var reqs, urls := Requests(Notices(c.log)), msgs[n].urls;
            && |reqs| == |msgs| && Faithful(app, user, c)
            && (urls != [] ==>
                (reqs[n].url == Concat(urls) <==> forall i :: 0 <= i < |urls| - 1 ==> urls[i] == ""))
            && (urls == [] ==> reqs[n].url == if n == 0 then "" else reqs[n - 1].url)
  {
    hide Run, Told, Requests, FieldMap, Notices, Faithful;
    RequestsTold(app, user, msgs);
    RequestsOfTold("", [], msgs, n);
    if msgs[n].urls != [] {
      LastIsWholeIff(msgs[n].urls);
    }
  }
}
