/** HTTP/1.1 messages (section 3 of RFC 7230) as the controller parses them, and their printed form. */
module HttpMessages {
  import opened Options
  import opened Text

  datatype Request = Request(verb: string, path: string, headers: map<string, string>, body: string)

  // ---- parsing ----

  function IndexOf(s: string, c: char): (n: nat)
    requires c in s
    ensures n < |s| && s[n] == c && c !in s[..n]
  {
    if s[0] == c then 0 else 1 + IndexOf(s[1..], c)
  }

  /** `split(":", 1)` on a line that has a colon. */
  function WithField(headers: map<string, string>, line: string): map<string, string> {
    if ':' in line
    then var n := IndexOf(line, ':'); headers[Lower(Strip(line[..n])) := Strip(line[n + 1..])]
    else headers
  }

  /** The headers up to the first blank line, and the lines after it, if there is one. */
  function Scan(lines: seq<string>, headers: map<string, string>): (map<string, string>, Option<seq<string>>) {
    if lines == [] then (headers, None)
    else if Strip(lines[0]) == "" then (headers, Some(lines[1..]))
    else Scan(lines[1..], WithField(headers, Strip(lines[0])))
  }

  function Parsed(data: string): Option<Request> {
    var lines := Split(data, '\n');
    var parts := Words(Strip(lines[0]));
    if |parts| < 2 then None
    else
      var (headers, rest) := Scan(lines[1..], map[]);
      Some(Request(parts[0], parts[1], headers, Join(if rest.Some? then rest.value else lines[1..], '\n')))
  }

  method ParseRequest(data: string) returns (request: Option<Request>)
    ensures request == Parsed(data)
  {
    var lines := Split(data, '\n');
    var parts := Words(Strip(lines[0]));
    if |parts| < 2 { return None; }
    var headers: map<string, string> := map[];
    var bodyStart, i := 1, 1;
    while i < |lines|
      invariant 1 <= i <= |lines| && bodyStart == 1
      invariant Scan(lines[1..], map[]) == Scan(lines[i..], headers)
    {
      var line := Strip(lines[i]);
      assert lines[i..][1..] == lines[i + 1..];
      if line == "" {
        bodyStart := i + 1;
        break;
      }
      headers := WithField(headers, line);
      i := i + 1;
    }
    var body := if bodyStart < |lines| then Join(lines[bodyStart..], '\n') else "";
    return Some(Request(parts[0], parts[1], headers, body));
  }

  /** How many lines come before the first blank one. */
  function BlankAt(lines: seq<string>): (n: nat)
    ensures n <= |lines| && forall i :: 0 <= i < n ==> !Blank(lines[i])
    ensures n < |lines| ==> Blank(lines[n])
  {
    if lines == [] then 0
    else
      StripEmptyIff(lines[0]);
      if Strip(lines[0]) == "" then 0 else 1 + BlankAt(lines[1..])
  }

  lemma {:induction false} ScanStops(lines: seq<string>, headers: map<string, string>)
    ensures var n := BlankAt(lines); Scan(lines, headers).1 == if n < |lines| then Some(lines[n + 1..]) else None
  {
    if lines != [] {
      StripEmptyIff(lines[0]);
      ScanStops(lines[1..], WithField(headers, Strip(lines[0])));
    }
  }

  lemma {:induction false} JoinAppend(front: seq<string>, back: seq<string>)
    requires front != []
    ensures Join(front + back, '\n') == Join(front, '\n') + (if back != [] then "\n" else "") + Join(back, '\n')
  {
    if back == [] {
      assert front + back == front;
    } else if |front| == 1 {
      assert (front + back)[1..] == back;
    } else {
      assert (front + back)[1..] == front[1..] + back;
      JoinAppend(front[1..], back);
    }
  }

  /** The line where the body starts. */
  function BodyStart(lines: seq<string>): (start: nat)
    requires lines != []
    ensures 1 <= start <= |lines|
  {
    var n := BlankAt(lines[1..]);
    if n < |lines| - 1 then n + 2 else 1
  }

  lemma BodyLines(lines: seq<string>, headers: map<string, string>)
    requires lines != []
    ensures var rest := Scan(lines[1..], headers).1;
      (if rest.Some? then rest.value else lines[1..]) == lines[BodyStart(lines)..]
  {
    ScanStops(lines[1..], headers);
    var n := BlankAt(lines[1..]);
    if n < |lines| - 1 { assert lines[1..][n + 1..] == lines[n + 2..]; }
  }

  /** The body is a suffix of the data: what follows the first blank line, to the character. Without a blank
  line it is everything after the request line, so header lines are then taken for the body as well. */
  lemma BodyIsSuffix(data: string)
    requires Parsed(data).Some?
    ensures var lines, body := Split(data, '\n'), Parsed(data).value.body;
      var start := BodyStart(lines);
      data == Join(lines[..start], '\n') + (if start < |lines| then "\n" else "") + body
  {
    var lines := Split(data, '\n');
    BodyLines(lines, map[]);
    JoinSplit(data, '\n');
    var front, back := lines[..BodyStart(lines)], lines[BodyStart(lines)..];
    assert front + back == lines;
    JoinAppend(front, back);
  }

  // ---- printing ----

  /** A header field, with the white space around its value. */
  datatype Field = Field(name: string, left: string, value: string, right: string)

  predicate GoodField(f: Field) {
    && f.name != "" && Trimmed(f.name) && ':' !in f.name && '\n' !in f.name
    && Blank(f.left) && Blank(f.right) && '\n' !in f.left && '\n' !in f.right
    && Trimmed(f.value) && '\n' !in f.value
  }

  /** The end of a line before its line feed; a recipient may take a bare line feed for a line's end. */
  function Return(crlf: bool): string { if crlf then "\r" else "" }

  function FieldLine(f: Field, crlf: bool): string { f.name + ":" + f.left + f.value + f.right + Return(crlf) }

  function PrintFields(fields: seq<Field>, crlf: bool): string {
    if fields == [] then "" else FieldLine(fields[0], crlf) + "\n" + PrintFields(fields[1..], crlf)
  }

  function StartLine(first: string, second: string, third: string, crlf: bool): string {
    first + " " + second + " " + third + Return(crlf)
  }

  predicate GoodStart(first: string, second: string, third: string) {
    && first != "" && Solid(first) && second != "" && Solid(second)
    && third != "" && Trimmed(third) && '\n' !in third
  }

  function Print(first: string, second: string, third: string, fields: seq<Field>, body: string, crlf: bool): string {
    StartLine(first, second, third, crlf) + "\n" + (PrintFields(fields, crlf) + (Return(crlf) + "\n" + body))
  }

  /** The fields by lower-case name; of equal names the last counts. */
  function FieldMap(headers: map<string, string>, fields: seq<Field>): map<string, string>
    decreases fields
  {
    if fields == [] then headers
    else FieldMap(headers[Lower(fields[0].name) := fields[0].value], fields[1..])
  }

  lemma SolidHasNoNewline(s: string)
    requires Solid(s)
    ensures '\n' !in s
  {
    forall i | 0 <= i < |s| ensures s[i] != '\n' { assert !IsSpace(s[i]); }
  }

  lemma StartWords(first: string, second: string, third: string, crlf: bool)
    requires GoodStart(first, second, third)
    ensures var parts := Words(Strip(StartLine(first, second, third, crlf)));
      |parts| >= 2 && parts[0] == first && parts[1] == second
  {
    var text := first + [' '] + (second + [' '] + third);
    StartIsTrimmed(first, second, third, crlf);
    FirstWord(first, ' ', second + [' '] + third);
    FirstWord(second, ' ', third);
  }

  lemma StartIsTrimmed(first: string, second: string, third: string, crlf: bool)
    requires GoodStart(first, second, third)
    ensures Strip(StartLine(first, second, third, crlf)) == first + [' '] + (second + [' '] + third)
  {
    var text := first + [' '] + (second + [' '] + third);
    assert "" + text + Return(crlf) == StartLine(first, second, third, crlf);
    assert text[0] == first[0] && text[|text| - 1] == third[|third| - 1];
    StripPadded("", text, Return(crlf));
  }

  lemma FieldLineParses(f: Field, crlf: bool, headers: map<string, string>)
    requires GoodField(f)
    ensures Strip(FieldLine(f, crlf)) != ""
    ensures WithField(headers, Strip(FieldLine(f, crlf))) == headers[Lower(f.name) := f.value]
  {
    FieldLineStrips(f, crlf);
    FieldValueStrips(f.left, f.value, f.right + Return(crlf));
    StoredUnderName(headers, f, RStrip(f.left + f.value + (f.right + Return(crlf))));
  }

  lemma StoredUnderName(headers: map<string, string>, f: Field, after: string)
    requires GoodField(f) && Strip(after) == f.value
    ensures WithField(headers, f.name + [':'] + after) == headers[Lower(f.name) := f.value]
  {
    StripPadded("", f.name, "");
    assert "" + f.name + "" == f.name;
    ColonSplits(headers, f.name, after);
  }

  lemma FieldLineStrips(f: Field, crlf: bool)
    requires GoodField(f)
    ensures Strip(FieldLine(f, crlf)) == f.name + [':'] + RStrip(f.left + f.value + (f.right + Return(crlf)))
  {
    var after, line := f.left + f.value + (f.right + Return(crlf)), FieldLine(f, crlf);
    assert line == f.name + [':'] + after;
    assert line[0] == f.name[0];
    RStripAfter(f.name, ':', after);
  }

  lemma FieldValueStrips(left: string, value: string, right: string)
    requires Blank(left) && Blank(right) && Trimmed(value)
    ensures Strip(RStrip(left + value + right)) == value
  {
    RStripPadded(left, value, right);
    if value != "" {
      StripPadded(left, value, "");
      assert left + value + "" == left + value;
    }
  }

  lemma ColonSplits(headers: map<string, string>, name: string, after: string)
    requires ':' !in name
    ensures WithField(headers, name + [':'] + after) == headers[Lower(Strip(name)) := Strip(after)]
  {
    var line := name + [':'] + after;
    assert line[|name|] == ':' && line[..|name|] == name && line[|name| + 1..] == after;
    ColonIsFirst(line, |name|);
  }

  lemma ColonIsFirst(s: string, n: nat)
    requires n < |s| && s[n] == ':' && ':' !in s[..n]
    ensures ':' in s && IndexOf(s, ':') == n
  {
    var k := IndexOf(s, ':');
    forall i | 0 <= i < n ensures s[i] != ':' { assert s[..n][i] == s[i]; }
    forall i | 0 <= i < k ensures s[i] != ':' { assert s[..k][i] == s[i]; }
  }

  lemma {:induction false} FieldsParse(fields: seq<Field>, crlf: bool, body: string, headers: map<string, string>)
    requires forall f :: f in fields ==> GoodField(f)
    ensures Scan(Split(PrintFields(fields, crlf) + (Return(crlf) + "\n" + body), '\n'), headers)
         == (FieldMap(headers, fields), Some(Split(body, '\n')))
  {
    var end := Return(crlf) + "\n" + body;
    if fields == [] {
      assert PrintFields(fields, crlf) + end == end;
      SplitLine(Return(crlf), body, '\n');
      StripPadded("", "", Return(crlf));
      assert "" + "" + Return(crlf) == Return(crlf);
    } else {
      var f, rest := fields[0], PrintFields(fields[1..], crlf) + end;
      var line := FieldLine(f, crlf);
      assert f in fields;
      assert PrintFields(fields, crlf) + end == line + ['\n'] + rest;
      SplitLine(line, rest, '\n');
      FieldLineParses(f, crlf, headers);
      FieldsParse(fields[1..], crlf, body, headers[Lower(f.name) := f.value]);
      assert ([line] + Split(rest, '\n'))[1..] == Split(rest, '\n');
    }
  }

  /** Parsing inverts printing, for any fields, white space around values, line ends and body. */
  lemma ParseInvertsPrint(first: string, second: string, third: string, fields: seq<Field>, body: string, crlf: bool)
    requires GoodStart(first, second, third) && forall f :: f in fields ==> GoodField(f)
    ensures Parsed(Print(first, second, third, fields, body, crlf))
         == Some(Request(first, second, FieldMap(map[], fields), body))
  {
    var start, rest := StartLine(first, second, third, crlf), PrintFields(fields, crlf) + (Return(crlf) + "\n" + body);
    SolidHasNoNewline(first);
    SolidHasNoNewline(second);
    SplitLine(start, rest, '\n');
    StartWords(first, second, third, crlf);
    FieldsParse(fields, crlf, body, map[]);
    assert ([start] + Split(rest, '\n'))[1..] == Split(rest, '\n');
    JoinSplit(body, '\n');
  }

  /** Of the fields with one name, ignoring case, the last one counts. */
  lemma {:induction false} LastFieldWins(headers: map<string, string>, fields: seq<Field>, i: nat)
    requires i < |fields| && forall j :: i < j < |fields| ==> Lower(fields[j].name) != Lower(fields[i].name)
    ensures var name := Lower(fields[i].name);
      name in FieldMap(headers, fields) && FieldMap(headers, fields)[name] == fields[i].value
    decreases fields
  {
    var more := headers[Lower(fields[0].name) := fields[0].value];
    if i > 0 {
      LastFieldWins(more, fields[1..], i - 1);
    } else {
      OthersUntouched(more, fields[1..], Lower(fields[0].name));
    }
  }

  lemma {:induction false} OthersUntouched(headers: map<string, string>, fields: seq<Field>, name: string)
    requires forall f :: f in fields ==> Lower(f.name) != name
    ensures name in FieldMap(headers, fields) <==> name in headers
    ensures name in headers ==> FieldMap(headers, fields)[name] == headers[name]
    decreases fields
  {
    if fields != [] {
      assert fields[0] in fields;
      OthersUntouched(headers[Lower(fields[0].name) := fields[0].value], fields[1..], name);
    }
  }
}
