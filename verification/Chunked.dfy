/** The chunked transfer coding of RFC 7230, section 4.1: the printer used by `write`,
    a decoder of whole strings, and a decoder fed one byte at a time. */
module Chunked {
  import opened Text
  import opened Numerals

  /** The length in upper-case hexadecimal and the message, each with a CRLF after it. */
  function Chunk(msg: string): string {
    Numeral(16, |msg|) + "\r\n" + msg + "\r\n"
  }

  function Encode(msgs: seq<string>): string {
    if msgs == [] then "" else Chunk(msgs[0]) + Encode(msgs[1..])
  }

  // ---------------------------------------------------------------- decoding a whole string

  /** What has been decoded: the chunks, and whether the terminator was met (with the bytes
      after it), more input is needed, or the input is not a chunked body. */
  datatype Outcome =
    | Complete(chunks: seq<string>, rest: string)
    | Partial(chunks: seq<string>)
    | Malformed(chunks: seq<string>)
  {
    function After(earlier: seq<string>): Outcome { this.(chunks := earlier + chunks) }
  }

  /** The result of reading one syntactic element from the front of the input. */
  datatype Read<+T> = Got(value: T, rest: string) | More | Wrong

  function ReadCrLf(s: string): Read<()> {
    if s == "" then More
    else if s[0] != '\r' then Wrong
    else if |s| == 1 then More
    else if s[1] != '\n' then Wrong
    else Got((), s[2..])
  }

  /** Skips to the end of the line: a chunk extension or a trailer field. */
  function SkipLine(s: string): (r: Read<()>)
    ensures r.Got? ==> |r.rest| < |s|
  {
    if s == "" then More else if s[0] == '\r' then ReadCrLf(s) else SkipLine(s[1..])
  }

  function WithValue(n: nat, r: Read<()>): Read<nat> {
    match r
    case Got(_, rest) => Got(n, rest)
    case More => More
    case Wrong => Wrong
  }

  /** chunk-size [ chunk-ext ] CRLF, where `acc` is the value of the digits already read. */
  function ReadSize(s: string, acc: nat, seen: bool): (r: Read<nat>)
    ensures r.Got? ==> |r.rest| < |s|
  {
    if s == "" then More
    else
      match DigitValue(s[0])
      case Some(d) => ReadSize(s[1..], acc * 16 + d, true)
      case None =>
        if !seen then Wrong
        else if s[0] == ';' then WithValue(acc, SkipLine(s[1..]))
        else WithValue(acc, ReadCrLf(s))
  }

  /** trailer-part CRLF */
  function ReadTrailer(s: string): Outcome
    decreases |s|
  {
    if s == "" then Partial([])
    else if s[0] == '\r' then
      match ReadCrLf(s)
      case Got(_, rest) => Complete([], rest)
      case More => Partial([])
      case Wrong => Malformed([])
    else
      match SkipLine(s)
      case Got(_, rest) => ReadTrailer(rest)
      case More => Partial([])
      case Wrong => Malformed([])
  }

  /** chunk-data CRLF, for chunk data of `n` bytes. */
  function ReadData(n: nat, s: string): (r: Read<string>)
    ensures r.Got? ==> |r.rest| < |s|
  {
    if |s| < n then More
    else
      match ReadCrLf(s[n..])
      case More => More
      case Wrong => Wrong
      case Got(_, rest) => Got(s[..n], rest)
  }

  /** chunked-body */
  function Decode(s: string): Outcome
    decreases |s|
  {
    match ReadSize(s, 0, false)
    case More => Partial([])
    case Wrong => Malformed([])
    case Got(n, rest) =>
      if n == 0 then ReadTrailer(rest)
      else
        match ReadData(n, rest)
        case More => Partial([])
        case Wrong => Malformed([])
        case Got(data, tail) => Decode(tail).After([data])
  }

  // ---------------------------------------------------------------- printing, then decoding

  lemma {:induction false} ReadSizeDigit(d: nat, acc: nat, seen: bool, t: string)
    requires d < 16
    ensures ReadSize([DigitChar(d)] + t, acc, seen) == ReadSize(t, acc * 16 + d, true)
  {
    assert ([DigitChar(d)] + t)[1..] == t;
  }

  lemma {:induction false} ReadSizeOfNumeral(n: nat, t: string)
    ensures ReadSize(Numeral(16, n) + t, 0, false) == ReadSize(t, n, true)
    decreases n
  {
    if n < 16 {
      ReadSizeDigit(n, 0, false, t);
    } else {
      var q, d := n / 16, n % 16;
      assert Numeral(16, n) + t == Numeral(16, q) + ([DigitChar(d)] + t);
      ReadSizeOfNumeral(q, [DigitChar(d)] + t);
      ReadSizeDigit(d, q, true, t);
    }
  }

  /** One printed message in front of any further input: a non-empty one is a chunk, the
      empty one is exactly the terminator of the body. */
  lemma {:induction false} DecodeChunk(msg: string, t: string)
    ensures Decode(Chunk(msg) + t) ==
            if msg == "" then Complete([], t) else Decode(t).After([msg])
  {
    hide Numeral;
    var body := msg + "\r\n" + t;
    var s := Numeral(16, |msg|) + ("\r\n" + body);
    assert Chunk(msg) + t == s;
    ReadSizeOfNumeral(|msg|, "\r\n" + body);
    assert ("\r\n" + body)[2..] == body;
    assert ReadSize(s, 0, false) == Got(|msg|, body);
    assert body[..|msg|] == msg && body[|msg|..] == "\r\n" + t;
    assert ("\r\n" + t)[2..] == t;
  }

  lemma {:induction false} EncodeAppend(a: seq<string>, b: seq<string>)
    ensures Encode(a + b) == Encode(a) + Encode(b)
  {
    if a == [] {
      assert a + b == b;
    } else {
      assert (a + b)[1..] == a[1..] + b;
      EncodeAppend(a[1..], b);
    }
  }

  /** The position of the first empty message, or the number of messages. */
  function FirstEmpty(msgs: seq<string>): (i: nat)
    ensures i <= |msgs| && "" !in msgs[..i]
    ensures i < |msgs| ==> msgs[i] == ""
  {
    if msgs == [] || msgs[0] == "" then 0
    else
      var i := 1 + FirstEmpty(msgs[1..]);
      assert msgs[..i] == [msgs[0]] + msgs[1..][..i - 1];
      i
  }

  lemma {:induction false} FirstEmptyAppend(a: seq<string>, b: seq<string>)
    requires "" !in a
    ensures FirstEmpty(a + [""] + b) == |a|
  {
    if a != [] {
      assert (a + [""] + b)[1..] == a[1..] + [""] + b;
      FirstEmptyAppend(a[1..], b);
    }
  }

  /** Messages without an empty one are decoded as they were printed. */
  lemma {:induction false} DecodeMessages(msgs: seq<string>, t: string)
    requires "" !in msgs
    ensures Decode(Encode(msgs) + t) == Decode(t).After(msgs)
  {
    hide Decode, Chunk;
    if msgs == [] {
      assert Encode(msgs) + t == t;
      assert [] + Decode(t).chunks == Decode(t).chunks;
    } else {
      var rest := Encode(msgs[1..]) + t;
      assert Encode(msgs) + t == Chunk(msgs[0]) + rest;
      DecodeChunk(msgs[0], rest);
      DecodeMessages(msgs[1..], t);
      assert [msgs[0]] + (msgs[1..] + Decode(t).chunks) == msgs + Decode(t).chunks;
    }
  }

  /** The early-termination law: a decoder stops at the first empty message, has the messages
      before it, and leaves unread the encoding of the messages after it and what follows. */
  lemma {:induction false} DecodeEncode(msgs: seq<string>, t: string)
    ensures var i := FirstEmpty(msgs);
            Decode(Encode(msgs) + t) ==
            if i < |msgs| then Complete(msgs[..i], Encode(msgs[i + 1..]) + t)
            else Decode(t).After(msgs)
  {
    hide Decode, Chunk;
    var i := FirstEmpty(msgs);
    if i < |msgs| {
      var before, after := msgs[..i], msgs[i..];
      assert msgs == before + after;
      EncodeAppend(before, after);
      assert after[1..] == msgs[i + 1..];
      var rest := Encode(msgs[i + 1..]) + t;
      assert Encode(msgs) + t == Encode(before) + (Chunk("") + rest);
      DecodeMessages(before, Chunk("") + rest);
      DecodeChunk("", rest);
      assert before + [] == before;
    } else {
      assert msgs[..i] == msgs;
      DecodeMessages(msgs, t);
    }
  }

  /** Non-empty messages and the terminator: exactly those messages, every byte consumed. */
  lemma {:induction false} RoundTrip(msgs: seq<string>)
    requires "" !in msgs
    ensures Decode(Encode(msgs + [""])) == Complete(msgs, "")
  {
    var all := msgs + [""];
    assert msgs + [""] + [] == all;
    FirstEmptyAppend(msgs, []);
    DecodeEncode(all, "");
    assert all[..|msgs|] == msgs && all[|msgs| + 1..] == [];
    assert Encode(all) + "" == Encode(all);
  }

  lemma {:induction false} DecodeTerminated(msgs: seq<string>)
    ensures Decode(Encode(msgs + [""])).chunks == msgs[..FirstEmpty(msgs)]
  {
    hide Decode, Encode;
    var i := FirstEmpty(msgs);
    var all := msgs + [""];
    var rest := if i < |msgs| then msgs[i + 1..] + [""] else [];
    assert all == msgs[..i] + [""] + rest;
    FirstEmptyAppend(msgs[..i], rest);
    DecodeEncode(all, "");
    assert Encode(all) + "" == Encode(all);
    assert all[..i] == msgs[..i];
  }

  /** A client gets the whole text exactly when nothing but empty messages follows an empty one. */
  lemma {:induction false} NothingLostIff(msgs: seq<string>)
    ensures Concat(Decode(Encode(msgs + [""])).chunks) == Concat(msgs) <==>
            forall j :: FirstEmpty(msgs) <= j < |msgs| ==> msgs[j] == ""
  {
    hide Decode, Encode, FirstEmpty, Concat;
    var i := FirstEmpty(msgs);
    var before, after := msgs[..i], msgs[i..];
    DecodeTerminated(msgs);
    assert msgs == before + after;
    ConcatAppend(before, after);
    ConcatEmpty(after);
    assert forall j :: i <= j < |msgs| ==> msgs[j] == after[j - i];
    assert forall j :: 0 <= j < |after| ==> after[j] == msgs[j + i];
  }

  function Overhead(msgs: seq<string>): nat {
    if msgs == [] then 0 else |msgs[0]| + |Numeral(16, |msgs[0]|)| + 4 + Overhead(msgs[1..])
  }

  /** The size of the output, and the number of hexadecimal digits each length takes. */
  lemma {:induction false} EncodedSize(msgs: seq<string>)
    ensures |Encode(msgs)| == Overhead(msgs)
    ensures forall m :: m in msgs ==>
      var d := |Numeral(16, |m|)|;
      |m| < Pow(16, d) && (if m == "" then d == 1 else Pow(16, d - 1) <= |m|)
  {
    if msgs != [] {
      EncodedSize(msgs[1..]);
    }
    forall m | m in msgs
      ensures var d := |Numeral(16, |m|)|;
              |m| < Pow(16, d) && (if m == "" then d == 1 else Pow(16, d - 1) <= |m|)
    {
      NumeralLength(16, |m|);
    }
  }

  // ---------------------------------------------------------------- a decoder fed byte by byte

  datatype Phase =
    | Size(acc: nat, seen: bool)
    | Extension(acc: nat)
    | SizeLf(acc: nat)
    | Data(left: nat, got: string)
    | DataCr(got: string)
    | DataLf(got: string)
    | TrailerStart
    | TrailerLine
    | TrailerLf
    | LastLf
    | Done(rest: string)
    | Failed

  datatype Machine = Machine(chunks: seq<string>, phase: Phase)

  const START := Machine([], Size(0, false))

  function Next(p: Phase, c: char): Phase {
    match p
    case Size(acc, seen) =>
      (match DigitValue(c)
       case Some(d) => Size(acc * 16 + d, true)
       case None =>
         if !seen then Failed
         else if c == ';' then Extension(acc)
         else if c == '\r' then SizeLf(acc)
         else Failed)
    case Extension(acc) => if c == '\r' then SizeLf(acc) else p
    case SizeLf(acc) =>
      if c != '\n' then Failed else if acc == 0 then TrailerStart else Data(acc, "")
    case Data(left, got) => if left <= 1 then DataCr(got + [c]) else Data(left - 1, got + [c])
    case DataCr(got) => if c == '\r' then DataLf(got) else Failed
    case DataLf(got) => if c == '\n' then Size(0, false) else Failed
    case TrailerStart => if c == '\r' then LastLf else TrailerLine
    case TrailerLine => if c == '\r' then TrailerLf else TrailerLine
    case TrailerLf => if c == '\n' then TrailerStart else Failed
    case LastLf => if c == '\n' then Done("") else Failed
    case Done(rest) => Done(rest + [c])
    case Failed => Failed
  }

  function FeedByte(m: Machine, c: char): Machine {
    Machine(if m.phase.DataLf? && c == '\n' then m.chunks + [m.phase.got] else m.chunks, Next(m.phase, c))
  }

  function Feed(m: Machine, s: string): Machine
    decreases |s|
  {
    if s == "" then m else Feed(FeedByte(m, s[0]), s[1..])
  }

  function FeedAll(m: Machine, segments: seq<string>): Machine
    decreases |segments|
  {
    if segments == [] then m else FeedAll(Feed(m, segments[0]), segments[1..])
  }

  function Observe(m: Machine): Outcome {
    match m.phase
    case Done(rest) => Complete(m.chunks, rest)
    case Failed => Malformed(m.chunks)
    case _ => Partial(m.chunks)
  }

  lemma {:induction false} FeedAppend(m: Machine, a: string, b: string)
    ensures Feed(m, a + b) == Feed(Feed(m, a), b)
    decreases |a|
  {
    if a == "" {
      assert a + b == b;
    } else {
      assert (a + b)[1..] == a[1..] + b;
      FeedAppend(FeedByte(m, a[0]), a[1..], b);
    }
  }

  /** How the input is cut into segments makes no difference. */
  lemma {:induction false} Segmentation(m: Machine, segments: seq<string>)
    ensures FeedAll(m, segments) == Feed(m, Concat(segments))
    decreases |segments|
  {
    if segments != [] {
      FeedAppend(m, segments[0], Concat(segments[1..]));
      Segmentation(Feed(m, segments[0]), segments[1..]);
    }
  }

  lemma {:induction false} FeedFailed(out: seq<string>, s: string)
    ensures Feed(Machine(out, Failed), s) == Machine(out, Failed)
    decreases |s|
  {
    if s != "" {
      FeedFailed(out, s[1..]);
    }
  }

  lemma {:induction false} FeedDone(out: seq<string>, rest: string, s: string)
    ensures Feed(Machine(out, Done(rest)), s) == Machine(out, Done(rest + s))
    decreases |s|
  {
    if s == "" {
      assert rest + s == rest;
    } else {
      FeedDone(out, rest + [s[0]], s[1..]);
      assert rest + [s[0]] + s[1..] == rest + s;
    }
  }

  /** A phase that waits for the line feed of a CRLF fails on anything else. */
  lemma {:induction false} FeedLf(out: seq<string>, p: Phase, s: string)
    requires p.SizeLf? || p.DataLf? || p.TrailerLf? || p.LastLf?
    ensures Feed(Machine(out, p), s) ==
            if s == "" then Machine(out, p)
            else if s[0] != '\n' then Machine(out, Failed)
            else Feed(FeedByte(Machine(out, p), '\n'), s[1..])
  {
    if s != "" && s[0] != '\n' {
      FeedFailed(out, s[1..]);
    }
  }

  lemma {:induction false} FeedSkip(out: seq<string>, p: Phase, s: string)
    requires p.Extension? || p == TrailerLine
    ensures var m := Feed(Machine(out, p), s);
            match SkipLine(s)
            case More => Observe(m) == Partial(out)
            case Wrong => Observe(m) == Malformed(out)
            case Got(_, rest) =>
              m == Feed(Machine(out, Next(if p == TrailerLine then TrailerLf else SizeLf(p.acc), '\n')), rest)
    decreases |s|
  {
    if s != "" {
      if s[0] == '\r' {
        FeedLf(out, Next(p, '\r'), s[1..]);
        if |s| > 1 {
          assert s[1..][1..] == s[2..];
        }
      } else {
        FeedSkip(out, p, s[1..]);
      }
    }
  }

  lemma {:induction false} SizeStep(out: seq<string>, acc: nat, seen: bool, c: char)
    ensures FeedByte(Machine(out, Size(acc, seen)), c) == Machine(out, Next(Size(acc, seen), c))
  {
  }

  lemma {:induction false} FeedSize(out: seq<string>, acc: nat, seen: bool, s: string)
    ensures var m := Feed(Machine(out, Size(acc, seen)), s);
            match ReadSize(s, acc, seen)
            case More => Observe(m) == Partial(out)
            case Wrong => Observe(m) == Malformed(out)
            case Got(n, rest) => m == Feed(Machine(out, Next(SizeLf(n), '\n')), rest)
    decreases |s|
  {
    hide FeedByte, DigitValue;
    if s != "" {
      var p := Next(Size(acc, seen), s[0]);
      SizeStep(out, acc, seen, s[0]);
      match p {
        case Size(a, _) => FeedSize(out, a, true, s[1..]);
        case Extension(_) => FeedExtension(out, acc, s);
        case SizeLf(_) => FeedSizeEnd(out, acc, s);
        case Failed => FeedFailed(out, s[1..]);
      }
    }
  }

  lemma {:induction false} FeedExtension(out: seq<string>, acc: nat, s: string)
    requires s != ""
    ensures var m := Feed(Machine(out, Extension(acc)), s[1..]);
            match SkipLine(s[1..])
            case More => Observe(m) == Partial(out)
            case Wrong => Observe(m) == Malformed(out)
            case Got(_, rest) => m == Feed(Machine(out, Next(SizeLf(acc), '\n')), rest)
  {
    FeedSkip(out, Extension(acc), s[1..]);
  }

  lemma {:induction false} FeedSizeEnd(out: seq<string>, acc: nat, s: string)
    requires s != "" && s[0] == '\r'
    ensures var m := Feed(Machine(out, SizeLf(acc)), s[1..]);
            match ReadCrLf(s)
            case More => Observe(m) == Partial(out)
            case Wrong => Observe(m) == Malformed(out)
            case Got(_, rest) => m == Feed(Machine(out, Next(SizeLf(acc), '\n')), rest)
  {
    FeedLf(out, SizeLf(acc), s[1..]);
    if |s| > 1 {
      assert s[1..][1..] == s[2..];
    }
  }

  lemma {:induction false} DataStep(out: seq<string>, left: nat, got: string, c: char)
    ensures FeedByte(Machine(out, Data(left, got)), c) ==
            Machine(out, if left <= 1 then DataCr(got + [c]) else Data(left - 1, got + [c]))
  {
  }

  lemma {:induction false} TakeFirst(got: string, s: string, n: nat)
    requires 0 < n <= |s|
    ensures got + [s[0]] + s[1..][..n - 1] == got + s[..n] && s[1..][n - 1..] == s[n..]
  {
  }

  lemma {:induction false} FeedData(out: seq<string>, left: nat, got: string, s: string)
    requires left > 0
    ensures var m := Feed(Machine(out, Data(left, got)), s);
            if |s| < left then Observe(m) == Partial(out)
            else m == Feed(Machine(out, DataCr(got + s[..left])), s[left..])
    decreases |s|
  {
    hide FeedByte, Next;
    if s != "" {
      DataStep(out, left, got, s[0]);
      if left == 1 {
        assert s[..1] == [s[0]];
      } else {
        FeedData(out, left - 1, got + [s[0]], s[1..]);
        if |s| >= left {
          TakeFirst(got, s, left);
        }
      }
    }
  }

  lemma {:induction false} FeedDataEnd(out: seq<string>, got: string, s: string)
    ensures var m := Feed(Machine(out, DataCr(got)), s);
            match ReadCrLf(s)
            case More => Observe(m) == Partial(out)
            case Wrong => Observe(m) == Malformed(out)
            case Got(_, rest) => m == Feed(Machine(out + [got], Size(0, false)), rest)
  {
    if s != "" {
      if s[0] == '\r' {
        FeedLf(out, DataLf(got), s[1..]);
        if |s| > 1 {
          assert s[1..][1..] == s[2..];
        }
      } else {
        FeedFailed(out, s[1..]);
      }
    }
  }

  lemma {:induction false} FeedChunk(out: seq<string>, n: nat, s: string)
    requires n > 0
    ensures var m := Feed(Machine(out, Data(n, "")), s);
            match ReadData(n, s)
            case More => Observe(m) == Partial(out)
            case Wrong => Observe(m) == Malformed(out)
            case Got(data, rest) => m == Feed(Machine(out + [data], Size(0, false)), rest)
  {
    FeedData(out, n, "", s);
    if |s| >= n {
      assert "" + s[..n] == s[..n];
      FeedDataEnd(out, s[..n], s[n..]);
    }
  }

  lemma {:induction false} FeedLastLine(out: seq<string>, s: string)
    requires s != "" && s[0] == '\r'
    ensures Observe(Feed(Machine(out, TrailerStart), s)) == ReadTrailer(s).After(out)
  {
    assert out + [] == out;
    FeedLf(out, LastLf, s[1..]);
    if |s| > 1 && s[1] == '\n' {
      assert s[1..][1..] == s[2..];
      FeedDone(out, "", s[2..]);
      assert "" + s[2..] == s[2..];
    }
  }

  lemma {:induction false} FeedTrailerLine(out: seq<string>, s: string)
    requires s != "" && s[0] != '\r'
    ensures var m := Feed(Machine(out, TrailerStart), s);
            match SkipLine(s)
            case More => Observe(m) == Partial(out)
            case Wrong => Observe(m) == Malformed(out)
            case Got(_, rest) => m == Feed(Machine(out, TrailerStart), rest)
  {
    FeedSkip(out, TrailerLine, s[1..]);
  }

  lemma {:induction false} FeedTrailer(out: seq<string>, s: string)
    ensures Observe(Feed(Machine(out, TrailerStart), s)) == ReadTrailer(s).After(out)
    decreases |s|
  {
    hide SkipLine, FeedByte, Observe;
    assert out + [] == out;
    if s == "" {
      ObserveTrailer(out);
    } else if s[0] == '\r' {
      FeedLastLine(out, s);
    } else {
      FeedTrailerLine(out, s);
      var r := SkipLine(s);
      if r.Got? {
        FeedTrailer(out, r.rest);
      }
    }
  }

  lemma {:induction false} ObserveTrailer(out: seq<string>)
    ensures Observe(Machine(out, TrailerStart)) == Partial(out)
  {
  }

  /** On every input whatever, well-formed or not, the byte-fed machine shows what the decoder
      of whole strings returns. */
  lemma {:induction false} MachineRefinesDecode(out: seq<string>, s: string)
    ensures Observe(Feed(Machine(out, Size(0, false)), s)) == Decode(s).After(out)
    decreases |s|
  {
    hide Feed, Observe, ReadSize, ReadData, ReadTrailer;
    assert out + [] == out;
    FeedSize(out, 0, false, s);
    var r := ReadSize(s, 0, false);
    if r.Got? {
      if r.value == 0 {
        FeedTrailer(out, r.rest);
      } else {
        FeedChunk(out, r.value, r.rest);
        var d := ReadData(r.value, r.rest);
        if d.Got? {
          MachineRefinesDecode(out + [d.value], d.rest);
          assert out + [d.value] + Decode(d.rest).chunks == out + ([d.value] + Decode(d.rest).chunks);
        }
      }
    }
  }

  /** A recipient that sees the printed messages in any segments decodes the same. */
  lemma {:induction false} SegmentedRoundTrip(msgs: seq<string>, segments: seq<string>)
    requires "" !in msgs
    requires Concat(segments) == Encode(msgs + [""])
    ensures Observe(FeedAll(START, segments)) == Complete(msgs, "")
  {
    Segmentation(START, segments);
    MachineRefinesDecode([], Concat(segments));
    RoundTrip(msgs);
    assert [] + msgs == msgs;
  }
}
