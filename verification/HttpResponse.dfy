/** Decimal numbers as text, written and read. */
module Decimals {
  import opened Options

  predicate IsDigit(c: char) {
    '0' <= c <= '9'
  }

  predicate Digits(s: string) {
    forall k | 0 <= k < |s| :: IsDigit(s[k])
  }

  function Digit(d: nat): (c: char)
    requires d < 10
    ensures IsDigit(c) && c as int - '0' as int == d
  {
    ('0' as int + d) as char
  }

  function Decimal(n: nat): (s: string)
    ensures s != "" && Digits(s)
  {
    if n < 10 then [Digit(n)] else Decimal(n / 10) + [Digit(n % 10)]
  }

  function Value(s: string): nat
    requires Digits(s)
  {
    if s == "" then 0
    else 10 * Value(s[..|s| - 1]) + (s[|s| - 1] as int - '0' as int)
  }

  function ParseDecimal(s: string): Option<nat> {
    if s != "" && Digits(s) then Some(Value(s)) else None
  }

  lemma {:induction false} DecimalReadBack(n: nat)
    ensures ParseDecimal(Decimal(n)) == Some(n)
  {
    var s := Decimal(n);
    if n < 10 {
      assert s[..|s| - 1] == "" && Value("") == 0;
    } else {
      DecimalReadBack(n / 10);
      assert s[..|s| - 1] == Decimal(n / 10);
    }
  }

  function Pow10(k: nat): nat {
    if k == 0 then 1 else 10 * Pow10(k - 1)
  }

  lemma {:induction false} DecimalFits(n: nat, k: nat)
    requires 0 < k && n < Pow10(k)
    ensures |Decimal(n)| <= k
    decreases k
  {
    if n >= 10 {
      DecimalFits(n / 10, k - 1);
    }
  }
}

/** A client's view of a response stream: a head up to the first empty line, then as many bytes as it announces. */
module Framing {
  import opened Options
  import opened Text
  import opened Decimals
  import opened Requests

  datatype Message = Message(head: seq<string>, body: string)

  /** The lines before the first empty line, and what follows it. */
  function SplitHead(s: string): Option<(seq<string>, string)>
    decreases |s|
  {
    var e := FindCrlf(s);
    if e == |s| then None
    else if e == 0 then Some(([], s[2..]))
    else
      match SplitHead(s[e + 2..])
      case None => None
      case Some((lines, rest)) => Some(([s[..e]] + lines, rest))
  }

  /** What the first field of that name says. */
  function FieldValue(head: seq<string>, name: string): Option<string> {
    if head == [] then None
    else
      match SplitHeader(head[0])
      case Some((n, value)) => if n == name then Some(value) else FieldValue(head[1..], name)
      case None => FieldValue(head[1..], name)
  }

  function ContentLength(head: seq<string>): Option<nat> {
    match FieldValue(head, "Content-length")
    case None => None
    case Some(value) => ParseDecimal(value)
  }

  function ReadMessage(s: string): Option<(Message, string)> {
    match SplitHead(s)
    case None => None
    case Some((head, rest)) =>
      match ContentLength(head)
      case None => None
      case Some(n) => if n <= |rest| then Some((Message(head, rest[..n]), rest[n..])) else None
  }

  /** Reads count messages and returns what follows them. */
  function ReadStream(s: string, count: nat): Option<(seq<Message>, string)>
    decreases count
  {
    if count == 0 then Some(([], s))
    else
      match ReadMessage(s)
      case None => None
      case Some((m, rest)) =>
        match ReadStream(rest, count - 1)
        case None => None
        case Some((ms, end)) => Some(([m] + ms, end))
  }

  function LinesText(lines: seq<string>): string {
    if lines == [] then "" else lines[0] + CRLF + LinesText(lines[1..])
  }

  function Wire(m: Message): string {
    LinesText(m.head) + CRLF + m.body
  }

  function WireAll(ms: seq<Message>): string {
    if ms == [] then "" else Wire(ms[0]) + WireAll(ms[1..])
  }

  /** Non-empty lines, and the announced length is the length of the body. */
  predicate WellFramed(m: Message) {
    && (forall k | 0 <= k < |m.head| :: m.head[k] != "" && NoCrlf(m.head[k]))
    && ContentLength(m.head) == Some(|m.body|)
  }

  lemma {:induction false} HeadSplitsBack(lines: seq<string>, rest: string)
    requires forall k | 0 <= k < |lines| :: lines[k] != "" && NoCrlf(lines[k])
    ensures SplitHead(LinesText(lines) + CRLF + rest) == Some((lines, rest))
  {
    var s := LinesText(lines) + CRLF + rest;
    if lines == [] {
      assert s == "" + CRLF + rest;
      FindCrlfAfter("", rest);
      assert s[2..] == rest;
    } else {
      var tail := LinesText(lines[1..]) + CRLF + rest;
      assert s == lines[0] + CRLF + tail;
      FindCrlfAfter(lines[0], tail);
      assert s[..|lines[0]|] == lines[0] && s[|lines[0]| + 2..] == tail;
      HeadSplitsBack(lines[1..], rest);
      assert [lines[0]] + lines[1..] == lines;
    }
  }

  lemma MessageReadBack(m: Message, rest: string)
    requires WellFramed(m)
    ensures ReadMessage(Wire(m) + rest) == Some((m, rest))
  {
    assert Wire(m) + rest == LinesText(m.head) + CRLF + (m.body + rest);
    HeadSplitsBack(m.head, m.body + rest);
    assert (m.body + rest)[..|m.body|] == m.body && (m.body + rest)[|m.body|..] == rest;
  }

  /** Well-framed messages sent one after the other are told apart again. */
  lemma {:induction false} StreamReadBack(ms: seq<Message>, rest: string)
    requires forall k | 0 <= k < |ms| :: WellFramed(ms[k])
    ensures ReadStream(WireAll(ms) + rest, |ms|) == Some((ms, rest))
  {
    if ms == [] {
      assert WireAll(ms) + rest == rest;
    } else {
      assert WireAll(ms) + rest == Wire(ms[0]) + (WireAll(ms[1..]) + rest);
      MessageReadBack(ms[0], WireAll(ms[1..]) + rest);
      StreamReadBack(ms[1..], rest);
      assert [ms[0]] + ms[1..] == ms;
    }
  }

  lemma {:induction false} WireAllAppends(ms: seq<Message>, m: Message)
    ensures WireAll(ms + [m]) == WireAll(ms) + Wire(m)
  {
    if ms == [] {
      assert [] + [m] == [m] && [m][1..] == [];
      assert WireAll([m]) == Wire(m) + "";
    } else {
      WireAllAppends(ms[1..], m);
      assert (ms + [m])[1..] == ms[1..] + [m] && (ms + [m])[0] == ms[0];
      assert Wire(ms[0]) + (WireAll(ms[1..]) + Wire(m)) == Wire(ms[0]) + WireAll(ms[1..]) + Wire(m);
    }
  }
}

module Responses {
  import opened Options
  import opened Text
  import opened Decimals
  import opened Framing
  import opened Requests
  import opened Buffers

  /** What stat says of the target. */
  datatype Stat = Missing | Directory | Regular(size: nat, othersRead: bool)

  /** stat, and the mapped contents, one char a byte, when open succeeds. */
  datatype Target = Target(stat: Stat, file: Option<string>)

  /** A mapping is of the non-empty regular file that stat saw. */
  predicate Servable(t: Target) {
    t.file.Some? ==> t.stat.Regular? && t.stat.size == |t.file.value| > 0
  }

  /** The test for a failed mmap looks at the file's first int instead of the address. */
  predicate ReadsAsMinusOne(file: string) {
    |file| >= 4 && forall k | 0 <= k < 4 :: file[k] == '\U{FF}'
  }

  /** The contents that are sent as such. */
  function Served(t: Target): Option<string> {
    if t.file.Some? && ReadsAsMinusOne(t.file.value) then None else t.file
  }

  const TEXT_TYPES: map<string, string> := map[
    ".html" := "text/html",
    ".xml" := "text/xml",
    ".txt" := "text/plain",
    ".css" := "text/css ",
    ".js" := "text/javascript "]

  const APPLICATION_TYPES: map<string, string> := map[
    ".xhtml" := "application/xhtml+xml",
    ".rtf" := "application/rtf",
    ".pdf" := "application/pdf",
    ".word" := "application/nsword",
    ".gz" := "application/x-gzip",
    ".tar" := "application/x-tar"]

  const MEDIA_TYPES: map<string, string> := map[
    ".png" := "image/png",
    ".gif" := "image/gif",
    ".jpg" := "image/jpeg",
    ".jpeg" := "image/jpeg",
    ".au" := "audio/basic",
    ".mpeg" := "video/mpeg",
    ".mpg" := "video/mpeg",
    ".avi" := "video/x-msvideo"]

  const SUFFIX_TYPE: map<string, string> := TEXT_TYPES + APPLICATION_TYPES + MEDIA_TYPES

  const CODE_STATUS: map<int, string> := map[200 := "OK", 400 := "Bad Request", 403 := "Forbidden", 404 := "Not Found"]

  /** The text from the last dot on, or nothing without a dot. */
  function Suffix(path: string): string {
    if path == "" then ""
    else if path[|path| - 1] == '.' then "."
    else if '.' in path then Suffix(path[..|path| - 1]) + [path[|path| - 1]]
    else ""
  }

  function FileType(path: string): string {
    if Suffix(path) in SUFFIX_TYPE then SUFFIX_TYPE[Suffix(path)] else "text/plain"
  }

  /** The code MakeResponse settles on. */
  function Code(code: int, stat: Stat): int {
    if !stat.Regular? then 404
    else if !stat.othersRead then 403
    else if code == -1 then 200
    else code
  }

  function KnownCode(code: int): (c: nat)
    ensures c in CODE_STATUS
  {
    if code in CODE_STATUS then code else 400
  }

  function StateLine(code: nat): string
    requires code in CODE_STATUS
  {
    "HTTP/1.1 " + Decimal(code) + " " + CODE_STATUS[code]
  }

  function ConnectionLines(keepAlive: bool): seq<string> {
    if keepAlive then [Field("Connection", "keep-alive"), Field("keep-alive", "max=6, timeout=120")]
    else [Field("Connection", "close")]
  }

  function TypeLine(path: string): string {
    Field("Content-type", FileType(path))
  }

  function LengthLine(n: nat): string {
    Field("Content-length", Decimal(n))
  }

  function Head(code: nat, keepAlive: bool, path: string, length: nat): seq<string>
    requires code in CODE_STATUS
  {
    [StateLine(code)] + ConnectionLines(keepAlive) + [TypeLine(path), LengthLine(length)]
  }

  /** The status text of the error page: the code looks up whether the code is 1, and not the code. */
  function ErrorStatus(code: nat): string {
    if (if code == 1 then 1 else 0) in CODE_STATUS && code in CODE_STATUS then CODE_STATUS[code] else "Bad Request"
  }

  /** So it is the status of a known code only for 400. */
  lemma ErrorStatusIsRightIff(code: nat)
    requires code in CODE_STATUS
    ensures ErrorStatus(code) == CODE_STATUS[code] <==> code == 400
  {
    assert CODE_STATUS[200][0] == 'O' && CODE_STATUS[403][0] == 'F' && CODE_STATUS[404][0] == 'N';
    assert "Bad Request"[0] == 'B';
  }

  function ErrorBody(code: nat, message: string): string {
    var body := "<html><title>Error</title>";
    var body := body + "<body bgcolor=\"ffffff\">";
    var body := body + (Decimal(code) + " : " + ErrorStatus(code) + "\n");
    var body := body + ("<p>" + message + "</p>");
    body + "<hr><em>XWebServer</em></body></html>"
  }

  const NOT_FOUND: string := "File NotFound!"

  function Body(code: nat, t: Target): string {
    if Served(t).Some? then Served(t).value else ErrorBody(code, NOT_FOUND)
  }

  /** The whole response to a path: the file when it can be mapped, and else the error page. */
  function Reply(code: int, keepAlive: bool, path: string, t: Target): Message {
    var c := KnownCode(Code(code, t.stat));
    var body := Body(c, t);
    Message(Head(c, keepAlive, path, |body|), body)
  }

  // ---------- every reply is well framed ----------

  lemma DecimalIsLineSafe(n: nat)
    ensures LineSafe(Decimal(n)) && ':' !in Decimal(n)
  {
    var s := Decimal(n);
    assert forall c | c in s :: IsDigit(c);
  }

  lemma TextTypesAreSafe(s: string)
    requires s in TEXT_TYPES
    ensures LineSafe(TEXT_TYPES[s])
  {
  }

  lemma ApplicationTypesAreSafe(s: string)
    requires s in APPLICATION_TYPES
    ensures LineSafe(APPLICATION_TYPES[s])
  {
  }

  lemma MediaTypesAreSafe(s: string)
    requires s in MEDIA_TYPES
    ensures LineSafe(MEDIA_TYPES[s])
  {
  }

  /** The content type comes from the table, so nothing of the path reaches the head. */
  lemma FileTypeIsLineSafe(path: string)
    ensures LineSafe(FileType(path))
  {
    var s := Suffix(path);
    if s in MEDIA_TYPES {
      MediaTypesAreSafe(s);
    } else if s in APPLICATION_TYPES {
      ApplicationTypesAreSafe(s);
    } else if s in TEXT_TYPES {
      TextTypesAreSafe(s);
    }
  }

  lemma FieldReads(name: string, value: string)
    requires ':' !in name && LineSafe(name) && LineSafe(value)
    ensures SplitHeader(Field(name, value)) == Some((name, value)) && LineSafe(Field(name, value))
  {
    HeaderSplitsIff(Field(name, value), name, value);
  }

  lemma StatusIsSafe(code: nat)
    requires code in CODE_STATUS
    ensures LineSafe(CODE_STATUS[code]) && ':' !in CODE_STATUS[code]
  {
  }

  lemma StateLineReads(code: nat)
    requires code in CODE_STATUS
    ensures LineSafe(StateLine(code)) && SplitHeader(StateLine(code)) == None
  {
    DecimalIsLineSafe(code);
    StatusIsSafe(code);
    FindNothing(StateLine(code), ':');
  }

  /** A line that is not the field of that name is read over. */
  predicate Skips(line: string, name: string) {
    match SplitHeader(line)
    case Some((n, value)) => n != name
    case None => true
  }

  predicate Skipped(line: string) {
    Skips(line, "Content-length")
  }

  lemma {:induction false} SkipsTo(lines: seq<string>, rest: seq<string>, name: string)
    requires forall k | 0 <= k < |lines| :: Skips(lines[k], name)
    ensures FieldValue(lines + rest, name) == FieldValue(rest, name)
  {
    if lines == [] {
      assert lines + rest == rest;
    } else {
      assert (lines + rest)[1..] == lines[1..] + rest && (lines + rest)[0] == lines[0];
      SkipsTo(lines[1..], rest, name);
    }
  }

  predicate GoodLine(line: string) {
    line != "" && NoCrlf(line)
  }

  lemma FieldIsGood(name: string, value: string)
    requires ':' !in name && LineSafe(name) && LineSafe(value)
    ensures GoodLine(Field(name, value)) && SplitHeader(Field(name, value)) == Some((name, value))
    ensures name != "Content-length" ==> Skipped(Field(name, value))
  {
    FieldReads(name, value);
    LineSafeHasNoCrlf(Field(name, value));
  }

  lemma StateLineIsGood(code: nat)
    requires code in CODE_STATUS
    ensures GoodLine(StateLine(code)) && Skipped(StateLine(code))
  {
    StateLineReads(code);
    LineSafeHasNoCrlf(StateLine(code));
  }

  lemma ConnectionLineIsGood()
    ensures GoodLine(Field("Connection", "keep-alive")) && Skipped(Field("Connection", "keep-alive"))
  {
    FieldIsGood("Connection", "keep-alive");
  }

  lemma KeepAliveLineIsGood()
    ensures GoodLine(Field("keep-alive", "max=6, timeout=120")) && Skipped(Field("keep-alive", "max=6, timeout=120"))
  {
    FieldIsGood("keep-alive", "max=6, timeout=120");
  }

  lemma CloseLineIsGood()
    ensures GoodLine(Field("Connection", "close")) && Skipped(Field("Connection", "close"))
  {
    FieldIsGood("Connection", "close");
  }

  lemma ConnectionLinesAreGood(keepAlive: bool)
    ensures forall k | 0 <= k < |ConnectionLines(keepAlive)| ::
              GoodLine(ConnectionLines(keepAlive)[k]) && Skipped(ConnectionLines(keepAlive)[k])
  {
    if keepAlive { ConnectionLineIsGood(); KeepAliveLineIsGood(); } else { CloseLineIsGood(); }
  }

  lemma TypeLineIsGood(path: string)
    ensures GoodLine(TypeLine(path)) && Skipped(TypeLine(path))
  {
    FileTypeIsLineSafe(path);
    FieldIsGood("Content-type", FileType(path));
  }

  lemma LengthLineIsGood(length: nat)
    ensures GoodLine(LengthLine(length)) && ContentLength([LengthLine(length)]) == Some(length)
  {
    DecimalIsLineSafe(length);
    FieldIsGood("Content-length", Decimal(length));
    DecimalReadBack(length);
  }

  lemma GoodHead(state: string, connection: seq<string>, kind: string, length: string)
    requires GoodLine(state) && GoodLine(kind) && GoodLine(length)
    requires forall k | 0 <= k < |connection| :: GoodLine(connection[k]) && Skipped(connection[k])
    requires Skipped(state) && Skipped(kind)
    ensures var head := [state] + connection + [kind, length];
            && (forall k | 0 <= k < |head| :: GoodLine(head[k]))
            && ContentLength(head) == ContentLength([length])
  {
    var front := [state] + connection + [kind];
    assert [state] + connection + [kind, length] == front + [length];
    forall k | 0 <= k < |front| ensures Skips(front[k], "Content-length") {
      assert Skipped(front[k]);
    }
    SkipsTo(front, [length], "Content-length");
  }

  lemma HeadIsGood(code: nat, keepAlive: bool, path: string, length: nat)
    requires code in CODE_STATUS
    ensures var head := Head(code, keepAlive, path, length); forall k | 0 <= k < |head| :: GoodLine(head[k])
    ensures ContentLength(Head(code, keepAlive, path, length)) == Some(length)
  {
    StateLineIsGood(code);
    ConnectionLinesAreGood(keepAlive);
    TypeLineIsGood(path);
    LengthLineIsGood(length);
    GoodHead(StateLine(code), ConnectionLines(keepAlive), TypeLine(path), LengthLine(length));
  }

  /** Whatever the request and the file, the head ends at its own empty line and announces the body's length. */
  lemma RepliesAreWellFramed(code: int, keepAlive: bool, path: string, t: Target)
    ensures WellFramed(Reply(code, keepAlive, path, t))
  {
    var m := Reply(code, keepAlive, path, t);
    var c := KnownCode(Code(code, t.stat));
    HeadIsGood(c, keepAlive, path, |m.body|);
  }

  // ---------- what a client is told ----------

  lemma OkLine()
    ensures StateLine(200) == "HTTP/1.1 200 OK"
  {
    assert Decimal(2) == "2" && Decimal(20) == "20" && Decimal(200) == "200";
  }

  lemma BadRequestLine()
    ensures StateLine(400) == "HTTP/1.1 400 Bad Request"
  {
    assert Decimal(4) == "4" && Decimal(40) == "40" && Decimal(400) == "400";
  }

  lemma ForbiddenLine()
    ensures StateLine(403) == "HTTP/1.1 403 Forbidden"
  {
    assert Decimal(4) == "4" && Decimal(40) == "40" && Decimal(403) == "403";
  }

  lemma NotFoundLine()
    ensures StateLine(404) == "HTTP/1.1 404 Not Found"
  {
    assert Decimal(4) == "4" && Decimal(40) == "40" && Decimal(404) == "404";
  }

  lemma StateLinesAre()
    ensures StateLine(200) == "HTTP/1.1 200 OK" && StateLine(400) == "HTTP/1.1 400 Bad Request"
    ensures StateLine(403) == "HTTP/1.1 403 Forbidden" && StateLine(404) == "HTTP/1.1 404 Not Found"
  {
    hide StateLine;
    OkLine();
    BadRequestLine();
    ForbiddenLine();
    NotFoundLine();
  }

  /** The four status lines differ. */
  lemma StateLinesDiffer(a: nat, b: nat)
    requires a in CODE_STATUS && b in CODE_STATUS
    ensures StateLine(a) == StateLine(b) <==> a == b
  {
    hide StateLine;
    StateLinesAre();
    assert "HTTP/1.1 200 OK"[9] == '2' && "HTTP/1.1 400 Bad Request"[9] == '4';
    assert "HTTP/1.1 403 Forbidden"[9] == '4' && "HTTP/1.1 404 Not Found"[9] == '4';
    assert "HTTP/1.1 400 Bad Request"[11] == '0' && "HTTP/1.1 403 Forbidden"[11] == '3';
    assert "HTTP/1.1 404 Not Found"[11] == '4';
  }

  /**
   The status line of a reply: 404 exactly for what is missing or a directory, 403 exactly for a file that
   others may not read, and otherwise 200 for an accepted request and 400 for a rejected one.
   */
  lemma StatusTells(ok: bool, keepAlive: bool, path: string, t: Target)
    ensures var m := Reply(if ok then 200 else 400, keepAlive, path, t);
            && m.head != []
            && (m.head[0] == "HTTP/1.1 404 Not Found" <==> t.stat.Missing? || t.stat.Directory?)
            && (m.head[0] == "HTTP/1.1 403 Forbidden" <==> t.stat.Regular? && !t.stat.othersRead)
            && (m.head[0] == "HTTP/1.1 200 OK" <==> t.stat.Regular? && t.stat.othersRead && ok)
            && (m.head[0] == "HTTP/1.1 400 Bad Request" <==> t.stat.Regular? && t.stat.othersRead && !ok)
  {
    hide StateLine;
    var c := KnownCode(Code(if ok then 200 else 400, t.stat));
    StateLinesAre();
    StateLinesDiffer(c, 200);
    StateLinesDiffer(c, 400);
    StateLinesDiffer(c, 403);
    StateLinesDiffer(c, 404);
  }

  lemma FieldIsFound(before: seq<string>, line: string, after: seq<string>, name: string, value: string)
    requires (forall k | 0 <= k < |before| :: Skips(before[k], name)) && SplitHeader(line) == Some((name, value))
    ensures FieldValue(before + [line] + after, name) == Some(value)
  {
    assert before + [line] + after == before + ([line] + after);
    SkipsTo(before, [line] + after, name);
    assert ([line] + after)[0] == line;
  }

  lemma KeepAliveTells(state: string, kind: string, last: string)
    requires SplitHeader(state) == None
    requires SplitHeader(kind).Some? && SplitHeader(kind).value.0 == "Content-type"
    ensures var head := [state] + ConnectionLines(true) + [kind, last];
            && FieldValue(head, "Connection") == Some("keep-alive")
            && FieldValue(head, "keep-alive") == Some("max=6, timeout=120")
            && FieldValue(head, "Content-type") == Some(SplitHeader(kind).value.1)
  {
    hide SplitHeader, Field, FieldValue, LineSafe;
    var first, second := Field("Connection", "keep-alive"), Field("keep-alive", "max=6, timeout=120");
    var head := [state] + ConnectionLines(true) + [kind, last];
    ConnectionField();
    KeepAliveField();
    NamesDiffer();
    assert head == [state] + [first] + [second, kind, last];
    FieldIsFound([state], first, [second, kind, last], "Connection", "keep-alive");
    assert head == [state, first] + [second] + [kind, last];
    FieldIsFound([state, first], second, [kind, last], "keep-alive", "max=6, timeout=120");
    assert head == [state, first, second] + [kind] + [last];
    FieldIsFound([state, first, second], kind, [last], "Content-type", SplitHeader(kind).value.1);
  }

  lemma ConnectionField()
    ensures SplitHeader(Field("Connection", "keep-alive")) == Some(("Connection", "keep-alive"))
  {
    FieldReads("Connection", "keep-alive");
  }

  lemma KeepAliveField()
    ensures SplitHeader(Field("keep-alive", "max=6, timeout=120")) == Some(("keep-alive", "max=6, timeout=120"))
  {
    FieldReads("keep-alive", "max=6, timeout=120");
  }

  lemma CloseField()
    ensures SplitHeader(Field("Connection", "close")) == Some(("Connection", "close"))
  {
    FieldReads("Connection", "close");
  }

  lemma NamesDiffer()
    ensures "Connection" != "Content-type" && "keep-alive" != "Content-type" && "Connection" != "keep-alive"
  {
    assert "Connection"[0] == 'C' && "keep-alive"[0] == 'k' && |"Connection"| != |"Content-type"|;
  }

  lemma CloseTells(state: string, kind: string, last: string)
    requires SplitHeader(state) == None
    requires SplitHeader(kind).Some? && SplitHeader(kind).value.0 == "Content-type"
    requires Skips(last, "keep-alive")
    ensures var head := [state] + ConnectionLines(false) + [kind, last];
            && FieldValue(head, "Connection") == Some("close")
            && FieldValue(head, "keep-alive") == None
            && FieldValue(head, "Content-type") == Some(SplitHeader(kind).value.1)
  {
    hide SplitHeader, Field, FieldValue, LineSafe;
    var first := Field("Connection", "close");
    var head := [state] + ConnectionLines(false) + [kind, last];
    CloseField();
    NamesDiffer();
    assert head == [state] + [first] + [kind, last];
    FieldIsFound([state], first, [kind, last], "Connection", "close");
    assert head == [state, first] + [kind] + [last];
    FieldIsFound([state, first], kind, [last], "Content-type", SplitHeader(kind).value.1);
    NotThere(head, "keep-alive");
  }

  lemma NotThere(head: seq<string>, name: string)
    requires forall k | 0 <= k < |head| :: Skips(head[k], name)
    ensures FieldValue(head, name) == None
  {
    SkipsTo(head, [], name);
    assert head + [] == head;
  }

  /** What a client reads in the head: whether the connection stays, and the type. */
  lemma FieldsTell(code: nat, keepAlive: bool, path: string, length: nat)
    requires code in CODE_STATUS
    ensures var head := Head(code, keepAlive, path, length);
            && FieldValue(head, "Connection") == Some(if keepAlive then "keep-alive" else "close")
            && FieldValue(head, "keep-alive") == (if keepAlive then Some("max=6, timeout=120") else None)
            && FieldValue(head, "Content-type") == Some(FileType(path))
  {
    hide SplitHeader, Field, FieldValue, LineSafe, StateLine, FileType, ConnectionLines, Decimal;
    StateLineReads(code);
    TypeLineReads(path);
    LengthLineReads(length);
    if keepAlive {
      KeepAliveTells(StateLine(code), TypeLine(path), LengthLine(length));
    } else {
      CloseTells(StateLine(code), TypeLine(path), LengthLine(length));
    }
  }

  lemma TypeLineReads(path: string)
    ensures SplitHeader(TypeLine(path)) == Some(("Content-type", FileType(path)))
  {
    FileTypeIsLineSafe(path);
    FieldReads("Content-type", FileType(path));
  }

  lemma LengthLineReads(length: nat)
    ensures Skips(LengthLine(length), "keep-alive")
  {
    DecimalIsLineSafe(length);
    FieldReads("Content-length", Decimal(length));
    assert "Content-length"[0] == 'C' && "keep-alive"[0] == 'k';
  }

  lemma {:induction false} SuffixIs(front: string, end: string)
    requires end != "" && end[0] == '.' && '.' !in end[1..]
    ensures Suffix(front + end) == end
  {
    var path, n := front + end, |end| - 1;
    assert path[..|path| - 1] == front + end[..n] && path[|path| - 1] == end[n];
    if n > 0 {
      assert path[|front|] == '.' && end[1..][n - 1] == end[n] && forall c | c in end[..n][1..] :: c in end[1..];
      SuffixIs(front, end[..n]);
      assert end[..n] + [end[n]] == end;
    } else {
      assert end == ".";
    }
  }

  /** The ends of paths that have a type of their own, and which. */
  const TEXT_ENDS: seq<string> := [".html", ".xml", ".txt", ".css", ".js"]
  const APPLICATION_ENDS: seq<string> := [".xhtml", ".rtf", ".pdf", ".word", ".gz", ".tar"]
  const MEDIA_ENDS: seq<string> := [".png", ".gif", ".jpg", ".jpeg", ".au", ".mpeg", ".mpg", ".avi"]

  predicate TextKind(end: string, kind: string) {
    && (end == ".html" ==> kind == "text/html")
    && (end == ".xml" ==> kind == "text/xml")
    && (end == ".txt" ==> kind == "text/plain")
    && (end == ".css" ==> kind == "text/css ")
    && (end == ".js" ==> kind == "text/javascript ")
  }

  predicate ApplicationKind(end: string, kind: string) {
    && (end == ".xhtml" ==> kind == "application/xhtml+xml")
    && (end == ".rtf" ==> kind == "application/rtf")
    && (end == ".pdf" ==> kind == "application/pdf")
    && (end == ".word" ==> kind == "application/nsword")
    && (end == ".gz" ==> kind == "application/x-gzip")
    && (end == ".tar" ==> kind == "application/x-tar")
  }

  predicate MediaKind(end: string, kind: string) {
    && (end == ".png" ==> kind == "image/png")
    && (end == ".gif" ==> kind == "image/gif")
    && (end == ".jpg" ==> kind == "image/jpeg")
    && (end == ".jpeg" ==> kind == "image/jpeg")
    && (end == ".au" ==> kind == "audio/basic")
    && (end == ".mpeg" ==> kind == "video/mpeg")
    && (end == ".mpg" ==> kind == "video/mpeg")
    && (end == ".avi" ==> kind == "video/x-msvideo")
  }

  lemma TextEnds(end: string)
    ensures end in TEXT_TYPES <==> end in TEXT_ENDS
    ensures end in TEXT_TYPES ==> TextKind(end, TEXT_TYPES[end])
  {
  }

  lemma ApplicationEnds(end: string)
    ensures end in APPLICATION_TYPES <==> end in APPLICATION_ENDS
    ensures end in APPLICATION_TYPES ==> ApplicationKind(end, APPLICATION_TYPES[end])
  {
  }

  lemma MediaEnds(end: string)
    ensures end in MEDIA_TYPES <==> end in MEDIA_ENDS
    ensures end in MEDIA_TYPES ==> MediaKind(end, MEDIA_TYPES[end])
  {
  }

  /** No end is in two tables. */
  lemma EndsDiffer(end: string)
    ensures end in TEXT_ENDS ==> end !in APPLICATION_ENDS && end !in MEDIA_ENDS
    ensures end in APPLICATION_ENDS ==> end !in MEDIA_ENDS
  {
    if end in MEDIA_ENDS {
      assert |end| in [3, 4, 5] && (|end| == 3 ==> end[1] == 'a') && (|end| == 5 ==> end[1] in ['j', 'm']);
      assert |end| == 4 ==> (end[1] in ['p', 'j', 'm'] && end[2] in ['n', 'p']) || end[1] in ['g', 'a'];
    }
    if end in TEXT_ENDS {
      assert |end| in [3, 4, 5] && (|end| == 3 ==> end[1] == 'j') && (|end| == 5 ==> end[1] == 'h');
      assert |end| == 4 ==> end[1] in ['x', 't', 'c'] && end[2] in ['m', 'x', 's'];
    }
    if end in APPLICATION_ENDS {
      assert |end| in [3, 4, 5, 6] && (|end| == 3 ==> end[1] == 'g') && (|end| == 5 ==> end[1] == 'w');
      assert |end| == 4 ==> end[1] in ['r', 'p', 't'] && end[2] in ['t', 'd', 'a'];
    }
  }

  /** The type a client is told: by the end of the path from its last dot on, plain text for any other end or none. */
  lemma TypeTells(front: string, end: string)
    requires end != "" ==> end[0] == '.' && '.' !in end[1..]
    requires end == "" ==> '.' !in front
    ensures var kind := FileType(front + end);
            && (end in TEXT_ENDS ==> TextKind(end, kind))
            && (end in APPLICATION_ENDS ==> ApplicationKind(end, kind))
            && (end in MEDIA_ENDS ==> MediaKind(end, kind))
            && (end !in TEXT_ENDS + APPLICATION_ENDS + MEDIA_ENDS ==> kind == "text/plain")
  {
    hide TextKind, ApplicationKind, MediaKind, Suffix;
    if end == "" {
      assert front + end == front;
      NoSuffix(front);
    } else {
      SuffixIs(front, end);
    }
    TextEnds(end);
    ApplicationEnds(end);
    MediaEnds(end);
    EndsDiffer(end);
  }

  lemma NoSuffix(path: string)
    requires '.' !in path
    ensures Suffix(path) == ""
  {
  }

  /** The page for a code in digits: always the same words. */
  function Page(digits: string): string {
    "<html><title>Error</title>" + "<body bgcolor=\"ffffff\">" + digits + " : Bad Request\n"
    + "<p>File NotFound!</p>" + "<hr><em>XWebServer</em></body></html>"
  }

  lemma PageParts(a: string, digits: string, b: string, c: string, d: string)
    ensures a + (digits + b + c + d) == a + digits + (b + c + d)
  {
  }

  lemma PageWords()
    ensures " : " + "Bad Request" + "\n" == " : Bad Request\n"
    ensures "<p>" + NOT_FOUND + "</p>" == "<p>File NotFound!</p>"
  {
  }

  lemma PageIs(code: nat)
    ensures ErrorBody(code, NOT_FOUND) == Page(Decimal(code))
  {
    hide Decimal;
    PageWords();
    PageParts("<html><title>Error</title>" + "<body bgcolor=\"ffffff\">", Decimal(code), " : ", "Bad Request", "\n");
  }

  lemma DigitsAre()
    ensures Decimal(200) == "200" && Decimal(400) == "400" && Decimal(403) == "403" && Decimal(404) == "404"
  {
    assert Decimal(2) == "2" && Decimal(4) == "4" && Decimal(20) == "20" && Decimal(40) == "40";
  }

  function CodeDigits(t: Target, ok: bool): string {
    if t.stat.Missing? || t.stat.Directory? then "404"
    else if !t.stat.othersRead then "403"
    else if ok then "200"
    else "400"
  }

  /** What stands for a file that cannot be had is the page for the code. */
  lemma PageTells(ok: bool, keepAlive: bool, path: string, t: Target)
    requires Served(t) == None
    ensures Reply(if ok then 200 else 400, keepAlive, path, t).body == Page(CodeDigits(t, ok))
  {
    hide Decimal, ErrorBody, Page, Head;
    DigitsAre();
    PageIs(KnownCode(Code(if ok then 200 else 400, t.stat)));
  }

  // ---------- how long a reply is ----------

  const LINE_ROOM: nat := 100
  const HEAD_ROOM: nat := 1000
  const SIZE_ROOM: nat := 10_000_000_000

  lemma {:induction false} LinesFit(lines: seq<string>)
    requires forall k | 0 <= k < |lines| :: |lines[k]| <= LINE_ROOM
    ensures |LinesText(lines)| <= |lines| * (LINE_ROOM + 2)
  {
    if lines != [] {
      LinesFit(lines[1..]);
    }
  }

  lemma FileTypeFits(path: string)
    ensures |FileType(path)| <= 30
  {
    var s := Suffix(path);
    if s in MEDIA_TYPES {
      assert |MEDIA_TYPES[s]| <= 30;
    } else if s in APPLICATION_TYPES {
      assert |APPLICATION_TYPES[s]| <= 30;
    } else if s in TEXT_TYPES {
      assert |TEXT_TYPES[s]| <= 30;
    }
  }

  lemma StateLineFits(code: nat)
    requires code in CODE_STATUS
    ensures |Decimal(code)| <= 3 && |StateLine(code)| <= LINE_ROOM
  {
    assert Pow10(1) == 10 && Pow10(2) == 100 && Pow10(3) == 1000;
    DecimalFits(code, 3);
    assert |CODE_STATUS[code]| <= 11;
  }

  lemma LengthLineFits(n: nat)
    requires n < SIZE_ROOM
    ensures |LengthLine(n)| <= LINE_ROOM
  {
    assert Pow10(2) == 100 && Pow10(4) == 10_000 && Pow10(6) == 1_000_000;
    assert Pow10(8) == 100_000_000 && Pow10(10) == SIZE_ROOM;
    DecimalFits(n, 10);
  }

  lemma HeadFits(code: nat, keepAlive: bool, path: string, length: nat)
    requires code in CODE_STATUS && length < SIZE_ROOM
    ensures |LinesText(Head(code, keepAlive, path, length))| <= 5 * (LINE_ROOM + 2)
  {
    StateLineFits(code);
    FileTypeFits(path);
    LengthLineFits(length);
    LinesFit(Head(code, keepAlive, path, length));
  }

  lemma ErrorBodyFits(code: nat)
    requires code in CODE_STATUS
    ensures |ErrorBody(code, NOT_FOUND)| <= 300
  {
    StateLineFits(code);
  }

  /** Whatever the request, a reply is longer than its file by a bounded head. */
  lemma ReplyFits(code: int, keepAlive: bool, path: string, t: Target)
    requires t.file.Some? ==> |t.file.value| < SIZE_ROOM
    ensures |Wire(Reply(code, keepAlive, path, t))| <= (if t.file.Some? then |t.file.value| else 0) + HEAD_ROOM
  {
    var c := KnownCode(Code(code, t.stat));
    if Served(t) == None {
      ErrorBodyFits(c);
    }
    HeadFits(c, keepAlive, path, |Body(c, t)|);
  }

  /** A file that opens is what the client gets, exactly unless its first four bytes are all 0xff. */
  lemma FileIsServedIff(code: int, keepAlive: bool, path: string, t: Target)
    requires Servable(t) && t.file.Some?
    ensures Reply(code, keepAlive, path, t).body == t.file.value <==> !("\U{FF}\U{FF}\U{FF}\U{FF}" <= t.file.value)
  {
    var c := KnownCode(Code(code, t.stat));
    var four := "\U{FF}\U{FF}\U{FF}\U{FF}";
    assert four[0] == four[1] == four[2] == four[3] == '\U{FF}';
    assert ReadsAsMinusOne(t.file.value) <==> four <= t.file.value;
    assert ErrorBody(c, NOT_FOUND)[0] == '<';
  }

  class HttpResponse {
    var res_code: int
    var m_isKeepAlive: bool
    var m_path: string
    var mmFile: Option<string>
    var fileSize: nat

    constructor ()
      ensures mmFile == None && fileSize == 0
    {
      res_code := -1;
      m_isKeepAlive := false;
      m_path := "";
      mmFile := None;
      fileSize := 0;
    }

    method Init(path: string, isKeepAlive: bool, code: int)
      modifies this
      ensures res_code == code && m_isKeepAlive == isKeepAlive && m_path == path
      ensures mmFile == None && fileSize == 0
    {
      if mmFile != None {
        UnmapFile();
      }
      res_code := code;
      m_isKeepAlive := isKeepAlive;
      m_path := path;
      mmFile := None;
      fileSize := 0;
    }

    method UnmapFile()
      modifies this`mmFile
      ensures mmFile == None
    {
      mmFile := None;
    }

    method AddStateLine(buff: Buffer)
      requires buff.Valid()
      modifies this`res_code, buff
      ensures buff.Valid() && res_code == KnownCode(old(res_code))
      ensures buff.Contents() == old(buff.Contents()) + (StateLine(res_code) + CRLF)
    {
      var status;
      if res_code in CODE_STATUS {
        status := CODE_STATUS[res_code];
      } else {
        res_code := 400;
        status := CODE_STATUS[400];
      }
      buff.Append("HTTP/1.1 " + Decimal(res_code) + " " + status + CRLF);
    }

    method AddHeader(buff: Buffer)
      requires buff.Valid()
      modifies buff
      ensures buff.Valid()
      ensures buff.Contents() == old(buff.Contents()) + LinesText(ConnectionLines(m_isKeepAlive) + [TypeLine(m_path)])
      ensures old(buff.Contents()) + "Connection: " + (if m_isKeepAlive then "keep-alive\r\n" else "close\r\n")
           <= buff.Contents()
    {
      ghost var before := buff.Contents();
      buff.Append("Connection: ");
      if m_isKeepAlive {
        buff.Append("keep-alive\r\n");
        buff.Append("keep-alive: max=6, timeout=120\r\n");
        Regroup(before + "Connection: ", "keep-alive\r\n", "keep-alive: max=6, timeout=120\r\n");
      } else {
        buff.Append("close\r\n");
      }
      ConnectionText(before, m_isKeepAlive);
      buff.Append(TypeLine(m_path) + CRLF);
      Regroup(before, LinesText(ConnectionLines(m_isKeepAlive)), TypeLine(m_path) + CRLF);
      LinesTextAppends(ConnectionLines(m_isKeepAlive), TypeLine(m_path));
    }

    method ErrorContent(buff: Buffer, message: string)
      requires buff.Valid() && res_code >= 0
      modifies buff
      ensures buff.Valid()
      ensures var body := ErrorBody(res_code, message);
              buff.Contents() == old(buff.Contents()) + (LengthLine(|body|) + CRLF + CRLF + body)
    {
      var body := "<html><title>Error</title>";
      body := body + "<body bgcolor=\"ffffff\">";
      var status;
      if (if res_code == 1 then 1 else 0) in CODE_STATUS && res_code in CODE_STATUS {
        status := CODE_STATUS[res_code];
      } else {
        status := "Bad Request";
      }
      body := body + (Decimal(res_code) + " : " + status + "\n");
      body := body + ("<p>" + message + "</p>");
      body := body + "<hr><em>XWebServer</em></body></html>";
      buff.Append(LengthLine(|body|) + CRLF + CRLF);
      buff.Append(body);
      Regroup(old(buff.Contents()), LengthLine(|body|) + CRLF + CRLF, body);
    }

    /** t is what the file system answers for m_path. */
    method AddContent(buff: Buffer, t: Target)
      requires buff.Valid() && res_code >= 0
      requires Served(t).Some? ==> fileSize == |Served(t).value|
      modifies this`mmFile, buff
      ensures buff.Valid()
      ensures mmFile == if Served(t).Some? then Served(t) else old(mmFile)
      ensures var body := Body(res_code, t);
              buff.Contents() == old(buff.Contents())
                + (LengthLine(|body|) + CRLF + CRLF + (if Served(t).Some? then "" else body))
    {
      if t.file == None {
        ErrorContent(buff, NOT_FOUND);
        return;
      }
      if ReadsAsMinusOne(t.file.value) {
        ErrorContent(buff, NOT_FOUND);
        return;
      }
      mmFile := t.file;
      buff.Append(LengthLine(fileSize) + CRLF + CRLF);
      assert LengthLine(fileSize) + CRLF + CRLF + "" == LengthLine(fileSize) + CRLF + CRLF;
    }

    /** The first half of MakeResponse: what stat says decides the code. */
    method SettleCode(t: Target)
      modifies this`res_code, this`fileSize
      ensures res_code == Code(old(res_code), t.stat)
      ensures t.stat.Missing? || t.stat.Directory? ==> res_code == 404
      ensures t.stat.Regular? && !t.stat.othersRead ==> res_code == 403
      ensures t.stat.Regular? && t.stat.othersRead ==> res_code == if old(res_code) == -1 then 200 else old(res_code)
      ensures fileSize == if t.stat.Regular? then t.stat.size else old(fileSize)
    {
      if t.stat.Regular? { fileSize := t.stat.size; }
      if !t.stat.Regular? {
        res_code := 404;
      } else if !t.stat.othersRead {
        res_code := 403;
      } else if res_code == -1 {
        res_code := 200;
      }
    }

    /** The buffer and the mapped file together are one reply. */
    method MakeResponse(buff: Buffer, t: Target)
      requires buff.Valid() && Servable(t) && mmFile == None
      modifies this, buff
      ensures buff.Valid() && m_path == old(m_path) && m_isKeepAlive == old(m_isKeepAlive)
      ensures mmFile == Served(t) && (mmFile.Some? ==> fileSize == |mmFile.value| > 0)
      ensures buff.Contents() + (if mmFile.Some? then mmFile.value else "")
           == old(buff.Contents()) + Wire(Reply(old(res_code), m_isKeepAlive, m_path, t))
    {
      SettleCode(t);
      AddLines(buff, t);
    }

    method AddFront(buff: Buffer)
      requires buff.Valid()
      modifies this`res_code, buff
      ensures buff.Valid() && res_code == KnownCode(old(res_code))
      ensures buff.Contents() == old(buff.Contents()) + (StateLine(res_code) + CRLF)
                                 + LinesText(ConnectionLines(m_isKeepAlive) + [TypeLine(m_path)])
    {
      AddStateLine(buff);
      AddHeader(buff);
    }

    /** The second half: state line, header and content. */
    method AddLines(buff: Buffer, t: Target)
      requires buff.Valid() && Servable(t)
      requires Served(t).Some? ==> fileSize == |Served(t).value|
      modifies this`res_code, this`mmFile, buff
      ensures buff.Valid() && mmFile == (if Served(t).Some? then Served(t) else old(mmFile))
      ensures res_code == KnownCode(old(res_code))
      ensures buff.Contents() + (if Served(t).Some? then Body(res_code, t) else "")
           == old(buff.Contents())
              + Wire(Message(Head(res_code, m_isKeepAlive, m_path, |Body(res_code, t)|), Body(res_code, t)))
    {
      hide Body, Head, Wire, LinesText, StateLine, LengthLine, TypeLine, ConnectionLines;
      AddFront(buff);
      AddContent(buff, t);
      ReplyText(old(buff.Contents()), res_code, m_isKeepAlive, m_path, Body(res_code, t), Served(t).Some?);
    }
  }

  lemma {:induction false} LinesTextAppends(lines: seq<string>, line: string)
    ensures LinesText(lines + [line]) == LinesText(lines) + (line + CRLF)
  {
    if lines == [] {
      assert [] + [line] == [line] && [line][1..] == [];
      assert LinesText([line]) == line + CRLF + "";
    } else {
      assert (lines + [line])[1..] == lines[1..] + [line] && (lines + [line])[0] == lines[0];
      LinesTextAppends(lines[1..], line);
      Regroup(lines[0] + CRLF, LinesText(lines[1..]), line + CRLF);
    }
  }

  function ConnectionValue(keepAlive: bool): string {
    if keepAlive then "keep-alive\r\n" + "keep-alive: max=6, timeout=120\r\n" else "close\r\n"
  }

  lemma ConnectionText(before: string, keepAlive: bool)
    ensures before + "Connection: " + ConnectionValue(keepAlive) == before + LinesText(ConnectionLines(keepAlive))
  {
    Regroup(before, "Connection: ", ConnectionValue(keepAlive));
    if keepAlive { KeepAliveText(); } else { CloseText(); }
  }

  lemma KeepAliveText()
    ensures "Connection: " + ConnectionValue(true) == LinesText(ConnectionLines(true))
  {
    TwoLines(Field("Connection", "keep-alive"), Field("keep-alive", "max=6, timeout=120"));
    assert "Connection: " + "keep-alive\r\n" == Field("Connection", "keep-alive") + CRLF;
    assert "keep-alive: max=6, timeout=120\r\n" == Field("keep-alive", "max=6, timeout=120") + CRLF;
    Regroup("Connection: ", "keep-alive\r\n", "keep-alive: max=6, timeout=120\r\n");
  }

  lemma CloseText()
    ensures "Connection: " + ConnectionValue(false) == LinesText(ConnectionLines(false))
  {
    LinesTextAppends([], Field("Connection", "close"));
    assert [] + [Field("Connection", "close")] == [Field("Connection", "close")];
    assert "Connection: " + "close\r\n" == Field("Connection", "close") + CRLF;
  }

  lemma TwoLines(a: string, b: string)
    ensures LinesText([a, b]) == a + CRLF + (b + CRLF)
  {
    assert [a] + [b] == [a, b] && [] + [a] == [a];
    LinesTextAppends([], a);
    LinesTextAppends([a], b);
    assert "" + (a + CRLF) == a + CRLF;
  }

  lemma ReplyText(front: string, code: nat, keepAlive: bool, path: string, body: string, mapped: bool)
    requires code in CODE_STATUS
    ensures front + (StateLine(code) + CRLF) + LinesText(ConnectionLines(keepAlive) + [TypeLine(path)])
            + (LengthLine(|body|) + CRLF + CRLF + (if mapped then "" else body)) + (if mapped then body else "")
         == front + Wire(Message(Head(code, keepAlive, path, |body|), body))
  {
    var middle := ConnectionLines(keepAlive) + [TypeLine(path)];
    var head := [StateLine(code)] + middle + [LengthLine(|body|)];
    assert head == Head(code, keepAlive, path, |body|);
    LinesTextAppends([StateLine(code)] + middle, LengthLine(|body|));
    assert ([StateLine(code)] + middle)[1..] == middle;
    Join(front, StateLine(code) + CRLF, LinesText(middle), LengthLine(|body|) + CRLF, body, mapped);
  }

  lemma Join(front: string, a: string, b: string, c: string, body: string, mapped: bool)
    ensures front + a + b + (c + CRLF + (if mapped then "" else body)) + (if mapped then body else "")
         == front + (a + b + c + CRLF + body)
  {
  }
}
