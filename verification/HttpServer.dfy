/** Responses printed to bytes, and requests sent to their handlers. A character stands for a byte. */
module HttpServer {
  import opened Options
  import opened Text
  import opened HttpMessages

  // ---- responses ----

  datatype Response = Response(code: nat, text: string, headers: seq<(string, string)>, body: string)

  function HeaderField(name: string, value: string): Field { Field(name, " ", value, "") }

  function FieldsOf(headers: seq<(string, string)>): seq<Field> {
    seq(|headers|, i requires 0 <= i < |headers| => HeaderField(headers[i].0, headers[i].1))
  }

  function LengthField(body: string): seq<Field> {
    if body != "" then [HeaderField("Content-Length", Digits(|body|))] else []
  }

  function AllFields(r: Response): seq<Field> {
    FieldsOf(r.headers) + LengthField(r.body) + [HeaderField("Connection", "close")]
  }

  function Printed(r: Response): string { Print("HTTP/1.1", Digits(r.code), r.text, AllFields(r), r.body, true) }

  function HeaderLine(name: string, value: string): string { name + ": " + value + "\r\n" }

  lemma {:induction false} PrintMore(fields: seq<Field>, f: Field)
    ensures PrintFields(fields + [f], true) == PrintFields(fields, true) + (FieldLine(f, true) + "\n")
  {
    if fields == [] {
      assert [f][1..] == [] && fields + [f] == [f];
    } else {
      assert (fields + [f])[1..] == fields[1..] + [f];
      PrintMore(fields[1..], f);
    }
  }

  lemma HeaderAdded(start: string, fields: seq<Field>, name: string, value: string)
    ensures start + PrintFields(fields, true) + HeaderLine(name, value)
         == start + PrintFields(fields + [HeaderField(name, value)], true)
  {
    PrintMore(fields, HeaderField(name, value));
    assert HeaderLine(name, value) == FieldLine(HeaderField(name, value), true) + "\n";
  }

  lemma HeadersGrow(headers: seq<(string, string)>, i: nat)
    requires i < |headers|
    ensures FieldsOf(headers[..i + 1]) == FieldsOf(headers[..i]) + [HeaderField(headers[i].0, headers[i].1)]
  {
  }

  lemma HeadEnds(r: Response, start: string)
    requires start == "HTTP/1.1 " + Digits(r.code) + " " + r.text + "\r\n"
    ensures start + PrintFields(AllFields(r), true) + "\r\n" + r.body == Printed(r)
  {
    assert start == StartLine("HTTP/1.1", Digits(r.code), r.text, true) + "\n";
    assert "\r\n" + r.body == Return(true) + "\n" + r.body;
  }

  method ToBytes(r: Response) returns (bytes: string)
    ensures bytes == Printed(r)
  {
    var response := "HTTP/1.1 " + Digits(r.code) + " " + r.text + "\r\n";
    ghost var start := response;
    assert FieldsOf(r.headers[..0]) == [];
    for i := 0 to |r.headers|
      invariant response == start + PrintFields(FieldsOf(r.headers[..i]), true)
    {
      HeadersGrow(r.headers, i);
      HeaderAdded(start, FieldsOf(r.headers[..i]), r.headers[i].0, r.headers[i].1);
      response := response + HeaderLine(r.headers[i].0, r.headers[i].1);
    }
    assert r.headers[..|r.headers|] == r.headers;
    if r.body != "" {
      HeaderAdded(start, FieldsOf(r.headers), "Content-Length", Digits(|r.body|));
      response := response + HeaderLine("Content-Length", Digits(|r.body|));
    }
    assert FieldsOf(r.headers) + [] == FieldsOf(r.headers);
    HeaderAdded(start, FieldsOf(r.headers) + LengthField(r.body), "Connection", "close");
    response := response + HeaderLine("Connection", "close");
    HeadEnds(r, start);
    bytes := response + "\r\n" + r.body;
  }

  predicate GoodResponse(r: Response) {
    && r.text != "" && Trimmed(r.text) && '\n' !in r.text
    && forall i :: 0 <= i < |r.headers| ==> GoodField(HeaderField(r.headers[i].0, r.headers[i].1))
  }

  lemma DigitsFit(n: nat)
    ensures Solid(Digits(n)) && Trimmed(Digits(n)) && '\n' !in Digits(n)
  {
    DigitsAreSolid(n);
    SolidHasNoNewline(Digits(n));
  }

  lemma CloseIsGood()
    ensures GoodField(HeaderField("Connection", "close"))
  {
  }

  lemma LengthIsGood(body: string)
    ensures forall f :: f in LengthField(body) ==> GoodField(f)
  {
    DigitsFit(|body|);
    assert GoodField(HeaderField("Content-Length", Digits(|body|)));
  }

  lemma FieldsAreGood(r: Response)
    requires GoodResponse(r)
    ensures forall f :: f in AllFields(r) ==> GoodField(f)
  {
    CloseIsGood();
    LengthIsGood(r.body);
    assert forall f :: f in FieldsOf(r.headers) ==> GoodField(f);
  }

  /** Whatever the handler's headers, the printed response reads back with its code, its body to the byte, and
  an instruction to close; a body brings its exact length. This program's own parser lets that length override
  one from the handler; for other readers see `OneLengthIff`. */
  lemma ResponseReadsBack(r: Response)
    requires GoodResponse(r)
    ensures var back := Parsed(Printed(r));
      && back.Some? && back.value.verb == "HTTP/1.1" && ReadDigits(Digits(r.code)) == r.code
      && back.value.path == Digits(r.code) && back.value.body == r.body
      && back.value.headers == FieldMap(map[], AllFields(r))
    ensures var headers := FieldMap(map[], AllFields(r));
      && "connection" in headers && headers["connection"] == "close"
      && (r.body != "" ==> "content-length" in headers && headers["content-length"] == Digits(|r.body|)
                           && ReadDigits(Digits(|r.body|)) == |r.body|)
  {
    DigitsFit(r.code);
    FieldsAreGood(r);
    ParseInvertsPrint("HTTP/1.1", Digits(r.code), r.text, AllFields(r), r.body, true);
    ReadPrinted(r.code);
    ReadPrinted(|r.body|);
    ReservedFieldsWin(r);
  }

  lemma ReservedFieldsWin(r: Response)
    ensures var headers := FieldMap(map[], AllFields(r));
      && "connection" in headers && headers["connection"] == "close"
      && (r.body != "" ==> "content-length" in headers && headers["content-length"] == Digits(|r.body|))
  {
    var fields := AllFields(r);
    var last := |fields| - 1;
    LowerNames();
    LastFieldWins(map[], fields, last);
    if r.body != "" { LastFieldWins(map[], fields, last - 1); }
  }

  lemma LowerNames()
    ensures Lower("Connection") == "connection" && Lower("Content-Length") == "content-length"
  {
  }

  /** Any other header of the handler's reads back too, if its name is not printed twice. */
  lemma OtherHeadersReadBack(r: Response, i: nat)
    requires i < |r.headers| && forall j :: i < j < |r.headers| ==> Lower(r.headers[j].0) != Lower(r.headers[i].0)
    requires Lower(r.headers[i].0) != "connection" && Lower(r.headers[i].0) != "content-length"
    ensures var headers := FieldMap(map[], AllFields(r)); var name := Lower(r.headers[i].0);
      name in headers && headers[name] == r.headers[i].1
  {
    LowerNames();
    LastFieldWins(map[], AllFields(r), i);
  }

  /** How many fields have a name, ignoring case. */
  function Named(fields: seq<Field>, name: string): nat {
    if fields == [] then 0
    else Named(fields[..|fields| - 1], name) + if Lower(fields[|fields| - 1].name) == name then 1 else 0
  }

  lemma NamedOneMore(fields: seq<Field>, f: Field, name: string)
    ensures Named(fields + [f], name) == Named(fields, name) + if Lower(f.name) == name then 1 else 0
  {
    assert (fields + [f])[..|fields|] == fields;
  }

  /** A message with differing lengths is invalid by section 3.3.2 of RFC 7230. The printed response has exactly one
  Content-Length if and only if it has a body and the handler set none, or has no body and the handler set one. */
  lemma OneLengthIff(r: Response)
    ensures Named(AllFields(r), "content-length") == 1 <==>
            Named(FieldsOf(r.headers), "content-length") == if r.body != "" then 0 else 1
  {
    LowerNames();
    var fields := FieldsOf(r.headers);
    var length := HeaderField("Content-Length", Digits(|r.body|));
    NamedOneMore(fields, length, "content-length");
    NamedOneMore(fields + LengthField(r.body), HeaderField("Connection", "close"), "content-length");
    assert fields + [] == fields;
  }

  // ---- requests to handlers ----

  const METHODS: seq<string> := ["GET", "POST", "PUT", "DELETE", "HEAD", "OPTIONS"]

  predicate LooksLikeHttp(data: string) {
    exists i :: 0 <= i < |METHODS| && METHODS[i] + " " <= Strip(data)
  }

  datatype Answer = NotHttp | BadRequest | NotFound(request: Request) | Handled(request: Request)

  function Dispatch(data: string, routes: set<(string, string)>): Answer {
    if !LooksLikeHttp(data) then NotHttp
    else
      var request := Parsed(data);
      if request.None? then BadRequest
      else if (request.value.verb, request.value.path) in routes then Handled(request.value)
      else NotFound(request.value)
  }

  /** `data` is a well-formed request with a known method. */
  predicate IsRequest(data: string, verb: string, target: string, version: string, fields: seq<Field>, body: string,
                      crlf: bool)
  {
    && verb in METHODS && GoodStart(verb, target, version) && (forall f :: f in fields ==> GoodField(f))
    && data == Print(verb, target, version, fields, body, crlf)
  }

  function Reached(routes: set<(string, string)>, request: Request): Answer {
    if (request.verb, request.path) in routes then Handled(request) else NotFound(request)
  }

  class HttpController {
    var routes: set<(string, string)>

    constructor ()
      ensures routes == {("GET", "/metrics"), ("GET", "/health/clock-sync"), ("GET", "/health/data-quality")}
    {
      routes := {("GET", "/metrics"), ("GET", "/health/clock-sync"), ("GET", "/health/data-quality")};
    }

    method RegisterRoute(verb: string, path: string)
      modifies this
      ensures routes == old(routes) + {(Upper(verb), path)}
    {
      routes := routes + {(Upper(verb), path)};
    }

    /** Data without a known method at its start is not handled, data without a method and a target is answered
    with an error, and a well-formed request reaches the handler of its method and target, if there is one. */
    method HandleRequest(data: string) returns (answer: Answer)
      ensures answer == Dispatch(data, routes)
      ensures answer.Handled? ==> (answer.request.verb, answer.request.path) in routes
      ensures answer.NotFound? ==> (answer.request.verb, answer.request.path) !in routes
      ensures forall verb, target, version, fields, body, crlf ::
                IsRequest(data, verb, target, version, fields, body, crlf) ==>
                  answer == Reached(routes, Request(verb, target, FieldMap(map[], fields), body))
    {
      forall verb, target, version, fields, body, crlf
        | IsRequest(data, verb, target, version, fields, body, crlf)
        ensures Dispatch(data, routes) == Reached(routes, Request(verb, target, FieldMap(map[], fields), body))
      {
        RequestReachesHandler(verb, target, version, fields, body, crlf, routes);
      }
      if !LooksLikeHttp(data) { return NotHttp; }
      var request := ParseRequest(data);
      if request.None? { return BadRequest; }
      if (request.value.verb, request.value.path) in routes { return Handled(request.value); }
      return NotFound(request.value);
    }
  }

  lemma StartOfPrinted(verb: string, target: string, rest: string)
    requires verb != "" && !IsSpace(verb[0]) && target != "" && Trimmed(target)
    ensures verb + " " <= Strip(verb + " " + target + rest)
  {
    var n := |target| - 1;
    var data := verb + " " + target + rest;
    assert data == (verb + " " + target[..n]) + [target[n]] + rest;
    assert data[0] == verb[0] && LStrip(data) == data;
    RStripAfter(verb + " " + target[..n], target[n], rest);
  }

  /** A well-formed request with a known method reaches exactly the handler registered for its method and
  target, with its fields and body. */
  lemma RequestReachesHandler(verb: string, target: string, version: string, fields: seq<Field>, body: string,
                              crlf: bool, routes: set<(string, string)>)
    requires verb in METHODS && GoodStart(verb, target, version) && forall f :: f in fields ==> GoodField(f)
    ensures var request := Request(verb, target, FieldMap(map[], fields), body);
      Dispatch(Print(verb, target, version, fields, body, crlf), routes)
      == if (verb, target) in routes then Handled(request) else NotFound(request)
  {
    ParseInvertsPrint(verb, target, version, fields, body, crlf);
    var rest := " " + version + Return(crlf) + "\n" + (PrintFields(fields, crlf) + (Return(crlf) + "\n" + body));
    assert Print(verb, target, version, fields, body, crlf) == verb + " " + target + rest;
    StartOfPrinted(verb, target, rest);
  }

  /** Data whose first line is blank is answered with an error even where a request follows, although section
  3.5 of RFC 7230 asks servers to ignore an empty line before the request line. */
  lemma LeadingBlankLineIsRefused(blank: string, data: string, routes: set<(string, string)>)
    requires Blank(blank) && '\n' !in blank && LooksLikeHttp(data)
    ensures Dispatch(blank + ['\n'] + data, routes) == BadRequest
  {
    SplitLine(blank, data, '\n');
    StripEmptyIff(blank);
    LStripPadding(blank + ['\n'], data);
  }

  /** The six methods that the server knows. */
  predicate KnownMethod(verb: string) {
    verb == "GET" || verb == "POST" || verb == "PUT" || verb == "DELETE" || verb == "HEAD" || verb == "OPTIONS"
  }

  lemma MethodsAreKnown(verb: string)
    ensures verb in METHODS <==> KnownMethod(verb)
  {
    assert METHODS[0] == "GET" && METHODS[1] == "POST" && METHODS[2] == "PUT";
    assert METHODS[3] == "DELETE" && METHODS[4] == "HEAD" && METHODS[5] == "OPTIONS";
  }

  /** A well-formed request is taken for HTTP, and answered at all, exactly if its method is one of the six. */
  lemma AnsweredIff(verb: string, target: string, version: string, fields: seq<Field>, body: string, crlf: bool,
                    routes: set<(string, string)>)
    requires GoodStart(verb, target, version) && forall f :: f in fields ==> GoodField(f)
    ensures Dispatch(Print(verb, target, version, fields, body, crlf), routes) != NotHttp <==> KnownMethod(verb)
  {
    MethodsAreKnown(verb);
    if verb in METHODS {
      RequestReachesHandler(verb, target, version, fields, body, crlf, routes);
    } else {
      var rest := " " + version + Return(crlf) + "\n" + (PrintFields(fields, crlf) + (Return(crlf) + "\n" + body));
      var data := Print(verb, target, version, fields, body, crlf);
      assert data == verb + " " + target + rest;
      StartOfPrinted(verb, target, rest);
      forall i | 0 <= i < |METHODS| ensures !(METHODS[i] + " " <= Strip(data)) {
        MethodsAreSolid(i);
        if METHODS[i] + " " <= Strip(data) { SameFirstWord(METHODS[i], verb, Strip(data)); }
      }
    }
  }

  lemma MethodsAreSolid(i: nat)
    requires i < |METHODS|
    ensures Solid(METHODS[i]) && METHODS[i] in METHODS
  {
  }

  /** Two words without white space that both start the data, each before a space, are the same. */
  lemma SameFirstWord(a: string, b: string, data: string)
    requires Solid(a) && Solid(b) && a + " " <= data && b + " " <= data
    ensures a == b
  {
    GapAfter(a, data);
    GapAfter(b, data);
    assert |a| == |b|;
  }

  lemma GapAfter(word: string, data: string)
    requires Solid(word) && word + " " <= data
    ensures |word| < |data| && data[|word|] == ' ' && word == data[..|word|]
    ensures forall i :: 0 <= i < |word| ==> data[i] != ' '
  {
    assert (word + " ")[|word|] == ' ' && (word + " ")[..|word|] == word;
    forall i | 0 <= i < |word| ensures data[i] != ' ' {
      assert data[i] == (word + " ")[i] == word[i] && !IsSpace(word[i]);
    }
  }

  /** A request line needs a method and a target, and no more. */
  lemma TwoWordsAreEnough(verb: string, target: string)
    requires verb != "" && Solid(verb) && target != "" && Solid(target)
    ensures Parsed(verb + " " + target) == Some(Request(verb, target, map[], ""))
    ensures Parsed(verb) == None
  {
    var line := verb + [' '] + target;
    assert verb + " " + target == line;
    SolidHasNoNewline(verb);
    SolidHasNoNewline(target);
    FirstWord(verb, ' ', target);
    LoneWord(target);
    LoneWord(verb);
    LoneLine(line);
    LoneLine(verb);
    assert [verb] + [target] == [verb, target];
  }

  lemma LoneLine(line: string)
    requires '\n' !in line && Trimmed(line)
    ensures Split(line, '\n') == [line] && Strip(line) == line
    ensures var words := Words(line);
      Parsed(line) == if |words| < 2 then None else Some(Request(words[0], words[1], map[], ""))
  {
    SplitWhole(line, '\n');
    StripPadded("", line, "");
    assert "" + line + "" == line;
    assert [line][1..] == [] && Scan([], map[]) == (map[], None) && Join([], '\n') == "";
  }

  lemma LoneWord(word: string)
    requires word != "" && Solid(word)
    ensures Words(word) == [word]
  {
    LoneLength(word);
    assert word[..|word|] == word && word[|word|..] == "";
  }

  lemma {:induction false} LoneLength(word: string)
    requires Solid(word)
    ensures WordLength(word) == |word|
  {
    if word != "" { LoneLength(word[1..]); }
  }
}
