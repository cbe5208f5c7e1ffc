/** The header block that `write` puts in front of its first message, and a reader of such
    blocks that, as section 3.5 of RFC 7230 allows, takes a line feed as the end of a line and
    ignores a carriage return before it. */
module HeaderBlock {
  import opened Text
  import opened Numerals

  // ---------------------------------------------------------------- string maps in key order

  type StringMap = map<string, string>

  /** `String.compare(a, b) < 0`: by the first difference, then by length. */
  predicate Less(a: string, b: string) {
    if b == "" then false
    else if a == "" then true
    else a[0] < b[0] || (a[0] == b[0] && Less(a[1..], b[1..]))
  }

  lemma {:induction false} LessTotal(a: string, b: string)
    ensures Less(a, b) || a == b || Less(b, a)
    ensures !(Less(a, b) && Less(b, a)) && !Less(a, a)
  {
    if a != "" {
      LessTotal(a[1..], if b == "" then a[1..] else b[1..]);
      if b != "" {
        assert a == [a[0]] + a[1..] && b == [b[0]] + b[1..];
      }
    }
  }

  lemma {:induction false} LessTransitive(a: string, b: string, c: string)
    requires Less(a, b) && Less(b, c)
    ensures Less(a, c)
  {
    if a != "" && a[0] == b[0] && b[0] == c[0] {
      LessTransitive(a[1..], b[1..], c[1..]);
    }
  }

  predicate IsLeast(k: string, keys: set<string>) {
    k in keys && forall j :: j in keys && j != k ==> Less(k, j)
  }

  lemma {:induction false} LeastExists(keys: set<string>)
    requires keys != {}
    ensures exists k :: k in keys && IsLeast(k, keys)
    decreases |keys|
  {
    var k :| k in keys;
    var others := keys - {k};
    if others == {} {
      assert keys == {k};
      assert IsLeast(k, keys);
    } else {
      LeastExists(others);
      var l :| l in others && IsLeast(l, others);
      LessTotal(k, l);
      if Less(l, k) {
        assert IsLeast(l, keys);
      } else {
        forall j | j in keys && j != k ensures Less(k, j) {
          if j != l {
            LessTransitive(k, l, j);
          }
        }
        assert IsLeast(k, keys);
      }
    }
  }

  lemma {:induction false} LeastUnique(keys: set<string>)
    ensures forall k, l :: IsLeast(k, keys) && IsLeast(l, keys) ==> k == l
  {
    forall k, l | IsLeast(k, keys) && IsLeast(l, keys) ensures k == l {
      LessTotal(k, l);
    }
  }

  /** The key a map iterates over first. */
  function Least(keys: set<string>): (k: string)
    requires keys != {}
    ensures IsLeast(k, keys)
  {
    LeastExists(keys);
    LeastUnique(keys);
    var k :| k in keys && IsLeast(k, keys);
    k
  }

  /** `StringMap.bindings`: by increasing key. */
  function Bindings(m: StringMap): seq<(string, string)>
    decreases |m|
  {
    if m == map[] then []
    else
      var k := Least(m.Keys);
      [(k, m[k])] + Bindings(m - {k})
  }

  /** `StringMap.fold(f, m, acc)`: by increasing key. */
  function Fold(f: (string, string, string) -> string, m: StringMap, acc: string): string
    decreases |m|
  {
    if m == map[] then acc
    else
      var k := Least(m.Keys);
      Fold(f, m - {k}, f(k, m[k], acc))
  }

  lemma {:induction false} BindingsOf(m: StringMap)
    ensures forall p :: p in Bindings(m) <==> p.0 in m && m[p.0] == p.1
    ensures forall i, j :: 0 <= i < j < |Bindings(m)| ==> Less(Bindings(m)[i].0, Bindings(m)[j].0)
    decreases |m|
  {
    if m != map[] {
      var k := Least(m.Keys);
      var rest := m - {k};
      BindingsOf(rest);
      assert Bindings(m) == [(k, m[k])] + Bindings(rest);
      forall i | 0 < i < |Bindings(m)| ensures Less(k, Bindings(m)[i].0) {
        assert Bindings(m)[i] in Bindings(rest);
      }
      forall p ensures p in Bindings(m) <==> p.0 in m && m[p.0] == p.1 {
        assert p in Bindings(m) <==> p == (k, m[k]) || p in Bindings(rest);
      }
    }
  }

  // ---------------------------------------------------------------- printing

  function StatusName(n: int): string {
    if n == 200 then "OK" else "Unknown"
  }

  function StatusLine(status: int): string {
    "HTTP/1.1 " + FormatInt(status) + " " + StatusName(status) + "\n"
  }

  function Line(name: string, value: string): string {
    name + ": " + value + "\n"
  }

  function RenderHeaders(m: StringMap): string {
    Fold((k, v, a) => Line(k, v) + a, m, "\n")
  }

  function Block(status: int, contentType: string, date: string, headers: StringMap): string {
    StatusLine(status) + (Line("Content-type", contentType) + (Line("Date", date) + RenderHeaders(headers)))
  }

  function Lines(fields: seq<(string, string)>): string {
    if fields == [] then "" else Line(fields[0].0, fields[0].1) + Lines(fields[1..])
  }

  lemma {:induction false} LinesAppend(a: seq<(string, string)>, b: seq<(string, string)>)
    ensures Lines(a + b) == Lines(a) + Lines(b)
  {
    if a == [] {
      assert a + b == b;
    } else {
      assert (a + b)[1..] == a[1..] + b;
      LinesAppend(a[1..], b);
    }
  }

  /** Folding by increasing key puts the header lines in decreasing order. */
  lemma {:induction false} FoldLines(m: StringMap, acc: string)
    ensures Fold((k, v, a) => Line(k, v) + a, m, acc) == Lines(Reverse(Bindings(m))) + acc
    decreases |m|
  {
    if m == map[] {
      assert Lines([]) + acc == acc;
    } else {
      var k := Least(m.Keys);
      FoldLines(m - {k}, Line(k, m[k]) + acc);
      var rest := Reverse(Bindings(m - {k}));
      assert Bindings(m)[1..] == Bindings(m - {k});
      assert Reverse(Bindings(m)) == rest + [(k, m[k])];
      LinesSnoc(rest, k, m[k]);
      Associative(Lines(rest), Line(k, m[k]), acc);
    }
  }

  lemma {:induction false} LinesSnoc(fields: seq<(string, string)>, name: string, value: string)
    ensures Lines(fields + [(name, value)]) == Lines(fields) + Line(name, value)
  {
    LinesAppend(fields, [(name, value)]);
    assert [(name, value)][1..] == [];
    assert Lines([(name, value)]) == Line(name, value) + "";
  }

  /** The fields of the block in the order in which they are sent. */
  function SentFields(contentType: string, date: string, headers: StringMap): seq<(string, string)> {
    [("Content-type", contentType), ("Date", date)] + Reverse(Bindings(headers))
  }

  lemma {:induction false} BlockLines(status: int, contentType: string, date: string, headers: StringMap)
    ensures Block(status, contentType, date, headers) ==
            StatusLine(status) + (Lines(SentFields(contentType, date, headers)) + "\n")
  {
    FoldLines(headers, "\n");
    var r := Reverse(Bindings(headers));
    var f := SentFields(contentType, date, headers);
    assert f[1..] == [("Date", date)] + r && f[1..][1..] == r;
    assert Lines(f) == Line("Content-type", contentType) + (Line("Date", date) + Lines(r));
  }

  // ---------------------------------------------------------------- reading

  datatype Head = Head(status: int, reason: string, fields: seq<(string, string)>)

  function DropCr(s: string): string {
    if s != "" && s[|s| - 1] == '\r' then s[..|s| - 1] else s
  }

  /** A line without its end, and what follows it. */
  function TakeLine(s: string): (r: Option<(string, string)>)
    ensures r.Some? ==> |r.value.1| < |s| && '\n' !in r.value.0
  {
    match SplitAt(s, '\n')
    case None => None
    case Some((line, rest)) => Some((DropCr(line), rest))
  }

  /** Name and value: the text before and after the first ": ". */
  function SplitField(line: string): Option<(string, string)> {
    if |line| < 2 then None
    else if line[0] == ':' && line[1] == ' ' then Some(("", line[2..]))
    else
      match SplitField(line[1..])
      case None => None
      case Some((name, value)) => Some(([line[0]] + name, value))
  }

  /** Fields up to the empty line. */
  function ParseFields(s: string): Option<(seq<(string, string)>, string)>
    decreases |s|
  {
    match TakeLine(s)
    case None => None
    case Some((line, rest)) =>
      if line == "" then Some(([], rest))
      else
        match (SplitField(line), ParseFields(rest))
        case (Some(field), Some((fields, body))) => Some(([field] + fields, body))
        case _ => None
  }

  function ParseStatusLine(line: string): Option<(int, string)> {
    if "HTTP/1.1 " <= line then
      match SplitAt(line[9..], ' ')
      case None => None
      case Some((code, reason)) =>
        match ParseInt(code)
        case None => None
        case Some(n) => Some((n, reason))
    else None
  }

  function ParseHead(s: string): Option<(Head, string)> {
    match TakeLine(s)
    case None => None
    case Some((line, rest)) =>
      match (ParseStatusLine(line), ParseFields(rest))
      case (Some((status, reason)), Some((fields, body))) => Some((Head(status, reason, fields), body))
      case _ => None
  }

  // ---------------------------------------------------------------- printing, then reading

  predicate NoSeparator(s: string) {
    forall i :: 0 <= i < |s| - 1 && s[i] == ':' ==> s[i + 1] != ' '
  }

  predicate CleanName(s: string) { '\n' !in s && NoSeparator(s) }

  predicate CleanValue(s: string) { '\n' !in s && DropCr(s) == s }

  lemma {:induction false} SplitFieldOf(name: string, value: string)
    requires NoSeparator(name)
    ensures SplitField(name + ": " + value) == Some((name, value))
  {
    var line := name + ": " + value;
    if name == "" {
      assert line[2..] == value;
    } else {
      assert line[1..] == name[1..] + ": " + value;
      assert NoSeparator(name[1..]) by {
        forall i | 0 <= i < |name[1..]| - 1 && name[1..][i] == ':' ensures name[1..][i + 1] != ' ' {
          assert name[i + 1] == ':';
        }
      }
      SplitFieldOf(name[1..], value);
      assert [name[0]] + name[1..] == name;
    }
  }

  lemma {:induction false} SplitFieldInverse(line: string)
    requires SplitField(line).Some?
    ensures var (name, value) := SplitField(line).value;
            line == name + ": " + value && NoSeparator(name)
  {
    if !(line[0] == ':' && line[1] == ' ') {
      SplitFieldInverse(line[1..]);
      var (name, value) := SplitField(line[1..]).value;
      assert line == [line[0]] + line[1..];
      assert line[1] == (name + ": " + value)[0];
    }
  }

  lemma {:induction false} TakeLineOf(line: string, rest: string)
    requires '\n' !in line
    ensures TakeLine(line + "\n" + rest) == Some((DropCr(line), rest))
  {
    SplitAtFirst(line, '\n', rest);
  }

  lemma {:induction false} DropCrField(name: string, value: string)
    ensures DropCr(name + ": " + value) == name + ": " + DropCr(value)
  {
    var line := name + ": " + value;
    assert line[|line| - 1] == if value == "" then ' ' else value[|value| - 1];
    if value != "" {
      assert line[..|line| - 1] == name + ": " + value[..|value| - 1];
    }
  }

  function DropCrs(fields: seq<(string, string)>): seq<(string, string)> {
    if fields == [] then [] else [(fields[0].0, DropCr(fields[0].1))] + DropCrs(fields[1..])
  }

  predicate SplitsCleanly(fields: seq<(string, string)>) {
    forall p :: p in fields ==> CleanName(p.0) && '\n' !in p.1
  }

  lemma {:induction false} ParseFieldLine(name: string, value: string, rest: string)
    requires CleanName(name) && '\n' !in value
    ensures ParseFields(Line(name, value) + rest) ==
            match ParseFields(rest)
            case None => None
            case Some((fields, body)) => Some(([(name, DropCr(value))] + fields, body))
  {
    var line := name + ": " + value;
    assert Line(name, value) + rest == line + "\n" + rest;
    TakeLineOf(line, rest);
    DropCrField(name, value);
    SplitFieldOf(name, DropCr(value));
  }

  lemma {:induction false} ParseLines(fields: seq<(string, string)>, body: string)
    requires SplitsCleanly(fields)
    ensures ParseFields(Lines(fields) + ("\n" + body)) == Some((DropCrs(fields), body))
  {
    if fields == [] {
      assert Lines(fields) + ("\n" + body) == "" + "\n" + body;
      TakeLineOf("", body);
    } else {
      var rest := Lines(fields[1..]) + ("\n" + body);
      assert Lines(fields) + ("\n" + body) == Line(fields[0].0, fields[0].1) + rest;
      ParseFieldLine(fields[0].0, fields[0].1, rest);
      ParseLines(fields[1..], body);
    }
  }

  lemma {:induction false} ParsedFieldsSplitCleanly(s: string)
    requires ParseFields(s).Some?
    ensures SplitsCleanly(ParseFields(s).value.0)
    decreases |s|
  {
    var (line, rest) := TakeLine(s).value;
    if line != "" {
      ParsedFieldsSplitCleanly(rest);
      SplitFieldInverse(line);
      var (name, value) := SplitField(line).value;
      assert forall c :: c in name || c in value ==> c in line;
    }
  }

  lemma {:induction false} DropCrsUnchanged(fields: seq<(string, string)>)
    ensures DropCrs(fields) == fields <==> forall p :: p in fields ==> DropCr(p.1) == p.1
  {
    if fields != [] {
      DropCrsUnchanged(fields[1..]);
      assert fields == [fields[0]] + fields[1..];
      assert DropCrs(fields)[1..] == DropCrs(fields[1..]);
      assert DropCrs(fields)[0] == (fields[0].0, DropCr(fields[0].1));
    }
  }

  /** What is read back from lines, whatever the fields are. */
  lemma {:induction false} ParseLinesIff(fields: seq<(string, string)>, body: string)
    ensures ParseFields(Lines(fields) + ("\n" + body)) == Some((fields, body)) <==>
            forall p :: p in fields ==> CleanName(p.0) && CleanValue(p.1)
  {
    DropCrsUnchanged(fields);
    if ParseFields(Lines(fields) + ("\n" + body)) == Some((fields, body)) {
      ParsedFieldsSplitCleanly(Lines(fields) + ("\n" + body));
    }
    if SplitsCleanly(fields) {
      ParseLines(fields, body);
    }
  }

  lemma {:induction false} StatusLineRead(status: int, rest: string)
    ensures TakeLine(StatusLine(status) + rest).Some?
    ensures TakeLine(StatusLine(status) + rest).value.1 == rest
    ensures ParseStatusLine(TakeLine(StatusLine(status) + rest).value.0) == Some((status, StatusName(status)))
  {
    hide FormatInt, ParseInt;
    var code, reason := FormatInt(status), StatusName(status);
    var line := "HTTP/1.1 " + code + " " + reason;
    assert StatusLine(status) + rest == line + "\n" + rest;
    forall c | c in code ensures c != '\n' && c != ' ' {
      FormatIntChars(status, c);
    }
    TakeLineOf(line, rest);
    assert line[|line| - 1] == reason[|reason| - 1];
    assert line[9..] == code + " " + reason;
    SplitAtFirst(code, ' ', reason);
    FormatIntRoundTrip(status);
  }

  /** The exact condition under which a block reads back as it was meant, with the body left over:
      no value has a line feed or ends in a carriage return, and no name has a line feed or ": ". */
  lemma {:induction false} BlockRoundTrip(status: int, contentType: string, date: string, headers: StringMap,
                                          body: string)
    requires CleanValue(date)
    ensures ParseHead(Block(status, contentType, date, headers) + body) ==
            Some((Head(status, if status == 200 then "OK" else "Unknown", SentFields(contentType, date, headers)),
                  body)) <==>
            CleanValue(contentType) && forall k :: k in headers ==> CleanName(k) && CleanValue(headers[k])
  {
    hide Block, Lines, StatusLine, SentFields, ParseFields, ParseStatusLine, TakeLine, CleanName, CleanValue;
    var fields := SentFields(contentType, date, headers);
    var rest := Lines(fields) + ("\n" + body);
    BlockLines(status, contentType, date, headers);
    assert Block(status, contentType, date, headers) + body == StatusLine(status) + rest;
    StatusLineRead(status, rest);
    ParseLinesIff(fields, body);
    CleanFields(contentType, date, headers);
  }

  lemma {:induction false} CleanFields(contentType: string, date: string, headers: StringMap)
    requires CleanValue(date)
    ensures (forall p :: p in SentFields(contentType, date, headers) ==> CleanName(p.0) && CleanValue(p.1)) <==>
            CleanValue(contentType) && forall k :: k in headers ==> CleanName(k) && CleanValue(headers[k])
  {
    BindingsOf(headers);
    var fields := SentFields(contentType, date, headers);
    assert CleanName("Content-type") && CleanName("Date");
    assert forall p :: p in fields <==>
      p == ("Content-type", contentType) || p == ("Date", date) || p in Reverse(Bindings(headers));
    if forall p :: p in fields ==> CleanName(p.0) && CleanValue(p.1) {
      assert ("Content-type", contentType) in fields;
      forall k | k in headers ensures CleanName(k) && CleanValue(headers[k]) {
        assert (k, headers[k]) in fields;
      }
    }
  }

  /** The fields as a map; of two fields with one name the first counts. */
  function FieldMap(fields: seq<(string, string)>): StringMap {
    if fields == [] then map[] else FieldMap(fields[1..])[fields[0].0 := fields[0].1]
  }

  lemma {:induction false} FieldMapSnoc(fields: seq<(string, string)>, p: (string, string))
    ensures FieldMap(fields + [p]) == map[p.0 := p.1] + FieldMap(fields)
  {
    if fields == [] {
      assert fields + [p] == [p];
    } else {
      assert (fields + [p])[1..] == fields[1..] + [p];
      FieldMapSnoc(fields[1..], p);
    }
  }

  /** The lines after the first two give back exactly the header map. */
  lemma {:induction false} SentFieldsGiveHeaders(headers: StringMap)
    ensures FieldMap(Reverse(Bindings(headers))) == headers
    decreases |headers|
  {
    if headers != map[] {
      var k := Least(headers.Keys);
      var rest := headers - {k};
      SentFieldsGiveHeaders(rest);
      assert Bindings(headers)[1..] == Bindings(rest);
      FieldMapSnoc(Reverse(Bindings(rest)), (k, headers[k]));
    }
  }

  lemma {:induction false} BindingsLength(m: StringMap)
    ensures |Bindings(m)| == |m|
    decreases |m|
  {
    if m != map[] {
      BindingsLength(m - {Least(m.Keys)});
    }
  }
}
