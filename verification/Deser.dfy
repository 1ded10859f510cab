/** The line protocol (pkg/cm/deser.go): printing a request and parsing it back. */
module Deser {
  import opened CmTypes

  // ---------- strings.Split and strings.Join, for a separator of one character ----------

  function Split(s: string, sep: char): (parts: seq<string>)
    ensures |parts| >= 1
  {
    if s == "" then [""]
    else
      var rest := Split(s[1..], sep);
      if s[0] == sep then [""] + rest else [[s[0]] + rest[0]] + rest[1..]
  }

  function Join(parts: seq<string>, sep: char): string {
    if parts == [] then "" else if |parts| == 1 then parts[0] else parts[0] + [sep] + Join(parts[1..], sep)
  }

  predicate AllFree(parts: seq<string>, sep: char) {
    forall i :: 0 <= i < |parts| ==> sep !in parts[i]
  }

  lemma {:induction false} SplitAtFirst(a: string, b: string, sep: char)
    requires sep !in a
    ensures Split(a + [sep] + b, sep) == [a] + Split(b, sep)
    ensures Split(a, sep) == [a]
  {
    if a == "" {
      assert (a + [sep] + b)[1..] == b;
    } else {
      SplitAtFirst(a[1..], b, sep);
      assert (a + [sep] + b)[1..] == a[1..] + [sep] + b;
      assert [a[0]] + a[1..] == a;
    }
  }

  lemma {:induction false} SplitJoin(parts: seq<string>, sep: char)
    requires parts != [] && AllFree(parts, sep)
    ensures Split(Join(parts, sep), sep) == parts
  {
    if |parts| == 1 {
      SplitAtFirst(parts[0], "", sep);
    } else {
      SplitJoin(parts[1..], sep);
      SplitAtFirst(parts[0], Join(parts[1..], sep), sep);
    }
  }

  lemma {:induction false} JoinFree(parts: seq<string>, sep: char, c: char)
    requires AllFree(parts, c) && c != sep
    ensures c !in Join(parts, sep)
  {
    if |parts| > 1 {
      JoinFree(parts[1..], sep, c);
    }
  }

  /** The pieces hold no separator, and no character that the whole did not hold. */
  lemma {:induction false} PiecesFree(s: string, sep: char, c: char)
    requires c == sep || c !in s
    ensures AllFree(Split(s, sep), c)
  {
    if s != "" {
      PiecesFree(s[1..], sep, c);
    }
  }

  function TrimNewline(s: string): string {
    if s != "" && s[|s| - 1] == '\n' then s[..|s| - 1] else s
  }

  // ---------- Lists ----------

  function CallTexts(calls: seq<CallArgs>): seq<string> {
    seq(|calls|, i requires 0 <= i < |calls| => calls[i].text)
  }

  function AsCalls(texts: seq<string>): seq<CallArgs> {
    seq(|texts|, i requires 0 <= i < |texts| => CallArgs(texts[i]))
  }

  function KeyTexts(keys: seq<Key>): seq<string> {
    seq(|keys|, i requires 0 <= i < |keys| => keys[i].text)
  }

  function AsKeys(texts: seq<string>): seq<Key> {
    seq(|texts|, i requires 0 <= i < |texts| => Key(texts[i]))
  }

  method UnparseCalls(calls: seq<CallArgs>) returns (s: string)
    ensures s == Join(CallTexts(calls), ',')
  {
    var stringCalls: seq<string> := [];
    for i := 0 to |calls|
      invariant stringCalls == CallTexts(calls[..i])
    {
      stringCalls := stringCalls + [calls[i].text];
    }
    assert calls[..|calls|] == calls;
    s := Join(stringCalls, ',');
  }

  method ParseCalls(callsString: string) returns (calls: seq<CallArgs>)
    ensures calls == AsCalls(Split(callsString, ','))
  {
    calls := [];
    var parts := Split(callsString, ',');
    for i := 0 to |parts|
      invariant calls == AsCalls(parts[..i])
    {
      calls := calls + [CallArgs(parts[i])];
    }
    assert parts[..|parts|] == parts;
  }

  method ParseKeyDependencies(keysString: string) returns (keys: seq<Key>)
    ensures keys == AsKeys(Split(keysString, ','))
  {
    keys := [];
    var parts := Split(keysString, ',');
    for i := 0 to |parts|
      invariant keys == AsKeys(parts[..i])
    {
      keys := keys + [Key(parts[i])];
    }
    assert parts[..|parts|] == parts;
  }

  // ---------- Requests ----------

  /** The words of a request's line. `FromCM` is not printed. */
  function Fields(r: Request<string>): seq<string> {
    match r
    case StartRequest(ca) => ["S", ca.text]
    case EndRequest(ca, caller, keys, calls, ret) =>
      ["E", ca.text, caller.text, Join(KeyTexts(keys), ','), Join(CallTexts(calls), ','), ret]
    case InvalidateKeyRequest(k, _) => ["I", k.text]
    case InvalidateCallsRequest(calls) => ["IC", Join(CallTexts(calls), ',')]
    case SaveCallsRequest(calls, rets) => ["SC", Join(CallTexts(calls), ','), Join(rets, ',')]
  }

  function Unparse(r: Request<string>): string {
    Join(Fields(r), ' ') + "\n"
  }

  /** Too few words, or an unknown first word, is a panic. */
  datatype ParseResult = Parsed(request: Request<string>) | Panic

  function ParseBytes(buf: string): ParseResult {
    var tokens := Split(TrimNewline(buf), ' ');
    if tokens[0] == "S" && |tokens| >= 2 then Parsed(StartRequest(CallArgs(tokens[1])))
    else if tokens[0] == "E" && |tokens| >= 6 then
      Parsed(EndRequest(CallArgs(tokens[1]), ServiceName(tokens[2]), AsKeys(Split(tokens[3], ',')), AsCalls(Split(tokens[4], ',')), tokens[5]))
    else if tokens[0] == "I" && |tokens| >= 2 then Parsed(InvalidateKeyRequest(Key(tokens[1]), false))
    else if tokens[0] == "IC" && |tokens| >= 2 then Parsed(InvalidateCallsRequest(AsCalls(Split(tokens[1], ','))))
    else if tokens[0] == "SC" && |tokens| >= 3 then Parsed(SaveCallsRequest(AsCalls(Split(tokens[1], ',')), Split(tokens[2], ',')))
    else Panic
  }

  predicate CleanList(texts: seq<string>) {
    texts != [] && AllFree(texts, ' ') && AllFree(texts, ',')
  }

  /** No field holds a space, no list is empty or has an element with a comma, FromCM is unset. */
  predicate Clean(r: Request<string>) {
    match r
    case StartRequest(ca) => ' ' !in ca.text
    case EndRequest(ca, caller, keys, calls, ret) =>
      ' ' !in ca.text && ' ' !in caller.text && CleanList(KeyTexts(keys)) && CleanList(CallTexts(calls)) && ' ' !in ret
    case InvalidateKeyRequest(k, fromCM) => ' ' !in k.text && !fromCM
    case InvalidateCallsRequest(calls) => CleanList(CallTexts(calls))
    case SaveCallsRequest(calls, rets) => CleanList(CallTexts(calls)) && CleanList(rets)
  }

  lemma ListOfToken(token: string)
    requires ' ' !in token
    ensures CleanList(Split(token, ','))
    ensures CallTexts(AsCalls(Split(token, ','))) == Split(token, ',') && KeyTexts(AsKeys(Split(token, ','))) == Split(token, ',')
  {
    PiecesFree(token, ',', ' ');
    PiecesFree(token, ',', ',');
  }

  /** Whatever the bytes, a request that is parsed is clean. */
  lemma ParsedIsClean(buf: string)
    ensures ParseBytes(buf).Parsed? ==> Clean(ParseBytes(buf).request)
  {
    var tokens := Split(TrimNewline(buf), ' ');
    PiecesFree(TrimNewline(buf), ' ', ' ');
    forall i | 0 <= i < |tokens|
      ensures CleanList(Split(tokens[i], ','))
      ensures CallTexts(AsCalls(Split(tokens[i], ','))) == Split(tokens[i], ',') && KeyTexts(AsKeys(Split(tokens[i], ','))) == Split(tokens[i], ',')
    {
      ListOfToken(tokens[i]);
    }
  }

  lemma ListPrinted(texts: seq<string>)
    requires CleanList(texts)
    ensures ' ' !in Join(texts, ',') && Split(Join(texts, ','), ',') == texts
  {
    JoinFree(texts, ',', ' ');
    SplitJoin(texts, ',');
  }

  lemma TokensAreFields(r: Request<string>)
    requires AllFree(Fields(r), ' ')
    ensures Split(TrimNewline(Unparse(r)), ' ') == Fields(r)
  {
    var line := Join(Fields(r), ' ');
    assert TrimNewline(line + "\n") == line;
    SplitJoin(Fields(r), ' ');
  }

  lemma CallsPrinted(calls: seq<CallArgs>)
    requires CleanList(CallTexts(calls))
    ensures ' ' !in Join(CallTexts(calls), ',') && AsCalls(Split(Join(CallTexts(calls), ','), ',')) == calls
  {
    ListPrinted(CallTexts(calls));
  }

  lemma KeysPrinted(keys: seq<Key>)
    requires CleanList(KeyTexts(keys))
    ensures ' ' !in Join(KeyTexts(keys), ',') && AsKeys(Split(Join(KeyTexts(keys), ','), ',')) == keys
  {
    ListPrinted(KeyTexts(keys));
  }

  lemma FieldsFree(r: Request<string>)
    requires Clean(r)
    ensures AllFree(Fields(r), ' ')
  {
    if r.EndRequest? {
      KeysPrinted(r.keyDeps);
      CallsPrinted(r.callDeps);
    } else if r.InvalidateCallsRequest? {
      CallsPrinted(r.calls);
    } else if r.SaveCallsRequest? {
      CallsPrinted(r.callArgsList);
      ListPrinted(r.returnVals);
    }
  }

  lemma CleanIsPrintedBack(r: Request<string>)
    requires Clean(r)
    ensures ParseBytes(Unparse(r)) == Parsed(r)
  {
    FieldsFree(r);
    TokensAreFields(r);
    match r
    case EndRequest(_, _, keys, calls, _) =>
      KeysPrinted(keys);
      CallsPrinted(calls);
    case InvalidateCallsRequest(calls) => CallsPrinted(calls);
    case SaveCallsRequest(calls, rets) =>
      CallsPrinted(calls);
      ListPrinted(rets);
    case _ =>
  }

  /** A request survives printing and parsing if and only if it is clean. */
  lemma RoundTripIff(r: Request<string>)
    ensures ParseBytes(Unparse(r)) == Parsed(r) <==> Clean(r)
  {
    ParsedIsClean(Unparse(r));
    if Clean(r) { CleanIsPrintedBack(r); }
  }

  /** So two clean requests never share a line. */
  lemma UnparseInjective(r1: Request<string>, r2: Request<string>)
    requires Clean(r1) && Clean(r2) && Unparse(r1) == Unparse(r2)
    ensures r1 == r2
  {
    CleanIsPrintedBack(r1);
    CleanIsPrintedBack(r2);
  }

  // ---------- The format, and all that is parsed ----------

  /** The lines, word by word. */
  lemma LinesAre(text: string, calls: seq<CallArgs>, rets: seq<string>, fromCM: bool)
    ensures Unparse(StartRequest(CallArgs(text))) == "S" + " " + text + "\n"
    ensures Unparse(InvalidateKeyRequest(Key(text), fromCM)) == "I" + " " + text + "\n"
    ensures Unparse(InvalidateCallsRequest(calls)) == "IC" + " " + Join(CallTexts(calls), ',') + "\n"
    ensures Unparse(SaveCallsRequest(calls, rets)) == "SC" + " " + Join(CallTexts(calls), ',') + " " + Join(rets, ',') + "\n"
  {
    JoinTwo("S", text);
    JoinTwo("I", text);
    JoinTwo("IC", Join(CallTexts(calls), ','));
    JoinThree("SC", Join(CallTexts(calls), ','), Join(rets, ','));
  }

  lemma EndLineIs(ca: string, caller: string, keys: seq<Key>, calls: seq<CallArgs>, ret: string)
    ensures Unparse(EndRequest(CallArgs(ca), ServiceName(caller), keys, calls, ret)) ==
            "E" + " " + ca + " " + caller + " " + Join(KeyTexts(keys), ',') + " " + Join(CallTexts(calls), ',') + " " + ret + "\n"
  {
    var ks, cs := Join(KeyTexts(keys), ','), Join(CallTexts(calls), ',');
    assert Fields(EndRequest(CallArgs(ca), ServiceName(caller), keys, calls, ret)) == ["E", ca, caller, ks, cs, ret];
    JoinSix("E", ca, caller, ks, cs, ret);
  }

  lemma JoinTwo(a: string, b: string)
    ensures Join([a, b], ' ') == a + " " + b
  {
    assert [a, b][1..] == [b];
  }

  lemma JoinThree(a: string, b: string, c: string)
    ensures Join([a, b, c], ' ') == a + " " + b + " " + c
  {
    assert [a, b, c][1..] == [b, c];
    JoinTwo(b, c);
    assert a + " " + (b + " " + c) == a + " " + b + " " + c;
  }

  lemma JoinSix(a: string, b: string, c: string, d: string, e: string, f: string)
    ensures Join([a, b, c, d, e, f], ' ') == a + " " + b + " " + c + " " + d + " " + e + " " + f
  {
    assert [a, b, c, d, e, f] == [a, b, c] + [d, e, f];
    JoinConcat([a, b, c], [d, e, f], ' ');
    JoinThree(a, b, c);
    JoinThree(d, e, f);
    assert a + " " + b + " " + c + [' '] + (d + " " + e + " " + f) == a + " " + b + " " + c + " " + d + " " + e + " " + f;
  }

  /** A join is the parts in order with one separator between any two. */
  lemma {:induction false} JoinConcat(a: seq<string>, b: seq<string>, sep: char)
    requires a != [] && b != []
    ensures Join(a + b, sep) == Join(a, sep) + [sep] + Join(b, sep)
  {
    assert (a + b)[1..] == a[1..] + b;
    if |a| > 1 {
      JoinConcat(a[1..], b, sep);
      assert a[0] + [sep] + (Join(a[1..], sep) + [sep] + Join(b, sep)) == a[0] + [sep] + Join(a[1..], sep) + [sep] + Join(b, sep);
    }
  }

  lemma {:induction false} JoinSplit(s: string, sep: char)
    ensures Join(Split(s, sep), sep) == s
  {
    if s != "" {
      JoinSplit(s[1..], sep);
      var rest := Split(s[1..], sep);
      assert s == [s[0]] + s[1..];
      if s[0] == sep {
        assert ([""] + rest)[1..] == rest;
      } else {
        assert ([[s[0]] + rest[0]] + rest[1..])[1..] == rest[1..];
        if |rest| > 1 { assert [s[0]] + rest[0] + [sep] + Join(rest[1..], sep) == [s[0]] + (rest[0] + [sep] + Join(rest[1..], sep)); }
      }
    }
  }

  /** The line is that of the request, or that followed by a space and more words. */
  ghost predicate LineOf(line: string, r: Request<string>) {
    line == Join(Fields(r), ' ') || exists more :: LineWithMore(line, r, more)
  }

  predicate LineWithMore(line: string, r: Request<string>, more: string) {
    line == Join(Fields(r), ' ') + " " + more
  }

  lemma WordsBeginWith(line: string, words: seq<string>)
    requires words != [] && words <= Split(line, ' ')
    ensures line == Join(words, ' ') || exists more :: line == Join(words, ' ') + " " + more
  {
    var all := Split(line, ' ');
    JoinSplit(line, ' ');
    if |all| == |words| {
      assert all == words;
    } else {
      var rest := all[|words|..];
      assert all == words + rest;
      JoinConcat(words, rest, ' ');
      assert line == Join(words, ' ') + " " + Join(rest, ' ');
    }
  }

  lemma WordsPrintBack(line: string)
    ensures forall i :: 0 <= i < |Split(line, ' ')| ==> ListPrintsBack(Split(line, ' ')[i])
  {
    var tokens := Split(line, ' ');
    PiecesFree(line, ' ', ' ');
    forall i | 0 <= i < |tokens| ensures ListPrintsBack(tokens[i]) {
      ListOfToken(tokens[i]);
      JoinSplit(tokens[i], ',');
    }
  }

  /** The parsed words are the fields of the request. */
  lemma ParsedFields(buf: string, r: Request<string>)
    requires ParseBytes(buf) == Parsed(r)
    ensures Fields(r) != [] && Fields(r) <= Split(TrimNewline(buf), ' ')
  {
    var tokens := Split(TrimNewline(buf), ' ');
    WordsPrintBack(TrimNewline(buf));
    FirstWords(tokens);
    match r
    case EndRequest(_, _, keys, calls, _) => assert ListPrintsBack(tokens[3]) && ListPrintsBack(tokens[4]);
    case InvalidateCallsRequest(calls) => assert ListPrintsBack(tokens[1]);
    case SaveCallsRequest(calls, rets) => assert ListPrintsBack(tokens[1]) && ListPrintsBack(tokens[2]);
    case _ =>
  }

  lemma FirstWords(ws: seq<string>)
    ensures |ws| >= 2 ==> [ws[0], ws[1]] <= ws
    ensures |ws| >= 3 ==> [ws[0], ws[1], ws[2]] <= ws
    ensures |ws| >= 6 ==> [ws[0], ws[1], ws[2], ws[3], ws[4], ws[5]] <= ws
  {}

  predicate ListPrintsBack(token: string) {
    && Join(KeyTexts(AsKeys(Split(token, ','))), ',') == token
    && Join(CallTexts(AsCalls(Split(token, ','))), ',') == token
    && Join(Split(token, ','), ',') == token
  }

  lemma FieldsParsed(buf: string, r: Request<string>)
    requires Clean(r) && Fields(r) <= Split(TrimNewline(buf), ' ')
    ensures ParseBytes(buf) == Parsed(r)
  {
    match r
    case EndRequest(_, _, keys, calls, _) =>
      KeysPrinted(keys);
      CallsPrinted(calls);
    case InvalidateCallsRequest(calls) => CallsPrinted(calls);
    case SaveCallsRequest(calls, rets) =>
      CallsPrinted(calls);
      ListPrinted(rets);
    case _ =>
  }

  lemma MoreWords(words: seq<string>, more: string)
    requires words != [] && AllFree(words, ' ')
    ensures words <= Split(Join(words, ' ') + " " + more, ' ')
  {
    var rest := Split(more, ' ');
    PiecesFree(more, ' ', ' ');
    JoinSplit(more, ' ');
    JoinConcat(words, rest, ' ');
    SplitJoin(words + rest, ' ');
  }

  /** For all bytes: they parse as a request if and only if the request is clean and the line, without
      its newline, is its own, possibly with more words behind; any other line panics. */
  lemma ParsesIff(buf: string, r: Request<string>)
    ensures ParseBytes(buf) == Parsed(r) <==> Clean(r) && LineOf(TrimNewline(buf), r)
  {
    var line := TrimNewline(buf);
    if ParseBytes(buf) == Parsed(r) {
      ParsedIsClean(buf);
      ParsedFields(buf, r);
      WordsBeginWith(line, Fields(r));
      if line != Join(Fields(r), ' ') {
        var more :| line == Join(Fields(r), ' ') + " " + more;
        assert LineWithMore(line, r, more);
      }
    } else if Clean(r) && LineOf(line, r) {
      FieldsFree(r);
      if line == Join(Fields(r), ' ') {
        SplitJoin(Fields(r), ' ');
      } else {
        var more :| LineWithMore(line, r, more);
        MoreWords(Fields(r), more);
      }
      FieldsParsed(buf, r);
    }
  }
}
