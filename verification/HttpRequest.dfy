/** Splitting text: at the first line end, and at the first occurrence of a character. */
module Text {
  const CRLF: string := "\r\n"

  /** Where the first line end starts, or the length when there is none. */
  function FindCrlf(s: string): (k: nat)
    ensures k <= |s|
    ensures k < |s| ==> k + 2 <= |s| && s[k] == '\r' && s[k + 1] == '\n'
  {
    if |s| < 2 then |s|
    else if s[0] == '\r' && s[1] == '\n' then 0
    else 1 + FindCrlf(s[1..])
  }

  predicate NoCrlf(s: string) {
    forall i | 0 <= i < |s| - 1 :: !(s[i] == '\r' && s[i + 1] == '\n')
  }

  /** Neither character of a line end, which is what a dot in a regular expression matches. */
  predicate LineSafe(s: string) {
    '\r' !in s && '\n' !in s
  }

  lemma LineSafeHasNoCrlf(s: string)
    requires LineSafe(s)
    ensures NoCrlf(s)
  {
  }

  /** A header field as it is printed. */
  function Field(name: string, value: string): string {
    name + [':'] + ([' '] + value)
  }

  lemma Regroup(a: string, b: string, c: string)
    ensures a + b + c == a + (b + c)
  {
  }

  function Find(s: string, c: char): (k: nat)
    ensures k <= |s| && c !in s[..k]
    ensures k < |s| ==> s[k] == c
  {
    if s == "" || s[0] == c then 0
    else
      var k := 1 + Find(s[1..], c);
      assert s[..k] == [s[0]] + s[1..][..k - 1];
      k
  }

  lemma {:induction false} FindAfter(a: string, c: char, b: string)
    requires c !in a
    ensures Find(a + [c] + b, c) == |a|
  {
    if a != "" {
      assert (a + [c] + b)[1..] == a[1..] + [c] + b;
      FindAfter(a[1..], c, b);
    }
  }

  lemma {:induction false} FindNothing(a: string, c: char)
    requires c !in a
    ensures Find(a, c) == |a|
  {
    if a != "" {
      FindNothing(a[1..], c);
    }
  }

  /** A line without a line end inside is what the search finds, even when it ends in a bare CR. */
  lemma {:induction false} FindCrlfAfter(line: string, rest: string)
    requires NoCrlf(line)
    ensures FindCrlf(line + CRLF + rest) == |line|
  {
    var s := line + CRLF + rest;
    if line != "" {
      assert s[0] == line[0];
      if |line| > 1 { assert s[1] == line[1]; }
      assert s[1..] == line[1..] + CRLF + rest;
      FindCrlfAfter(line[1..], rest);
    }
  }

  lemma {:induction false} FindCrlfNothing(s: string)
    requires NoCrlf(s)
    ensures FindCrlf(s) == |s|
  {
    if |s| >= 2 {
      FindCrlfNothing(s[1..]);
    }
  }

  /** What is before the first line end has none. */
  lemma {:induction false} FindCrlfIsFirst(s: string)
    ensures NoCrlf(s[..FindCrlf(s)])
  {
    if |s| >= 2 && !(s[0] == '\r' && s[1] == '\n') {
      var k := FindCrlf(s[1..]);
      FindCrlfIsFirst(s[1..]);
      forall i | 0 <= i < k ensures !(s[i] == '\r' && s[i + 1] == '\n') {
        if i > 0 {
          assert s[1..][..k][i - 1] == s[i] && s[1..][..k][i] == s[i + 1];
        }
      }
    }
  }
}

/**
 The request parser. The functions say what the two regular expressions accept and what the
 loop makes of a whole text; the class runs the loop over a buffer.
 */
module Requests {
  import opened Options
  import opened Text
  import opened Buffers

  datatype State = REQUEST_LINE | HEADERS | BODY | FINISH

  datatype Request = Request(
    state: State, method_: string, path: string, version: string, body: string,
    header: map<string, string>)

  const FRESH: Request := Request(REQUEST_LINE, "", "", "", "", map[])

  const DEFAULT_HTML: set<string> := {"/index", "/register", "/login", "/welcome", "/video", "/picture"}

  const HTTP_SLASH: string := "HTTP/"

  /** ^([^ ]*) ([^ ]*) HTTP/([^ ]*)$ */
  function SplitRequestLine(line: string): Option<(string, string, string)> {
    var i := Find(line, ' ');
    if i == |line| then None
    else
      var tail := line[i + 1..];
      var j := Find(tail, ' ');
      if j == |tail| then None
      else
        var last := tail[j + 1..];
        if HTTP_SLASH <= last && ' ' !in last then Some((line[..i], tail[..j], last[|HTTP_SLASH|..]))
        else None
  }

  /** ^([^:]*): ?(.*)$ */
  function SplitHeader(line: string): Option<(string, string)> {
    var i := Find(line, ':');
    if i == |line| then None
    else
      var tail := line[i + 1..];
      var value := if tail != "" && tail[0] == ' ' then tail[1..] else tail;
      if LineSafe(value) then Some((line[..i], value)) else None
  }

  function NormalPath(path: string): string {
    if path == "/" then "/index.html"
    else if path in DEFAULT_HTML then path + ".html"
    else path
  }

  function KeepAlive(r: Request): bool {
    "Connection" in r.header && r.header["Connection"] == "keep-alive" && r.version == "1.1"
  }

  /** The effect of one line, when the text up to the end of the buffer, line included, is `left` long. */
  function TakeLine(r: Request, line: string, left: nat): Option<Request> {
    match r.state
    case REQUEST_LINE =>
      (match SplitRequestLine(line)
       case None => None
       case Some((m, p, v)) => Some(r.(method_ := m, path := NormalPath(p), version := v, state := HEADERS)))
    case HEADERS =>
      var h := match SplitHeader(line)
               case Some((name, value)) => r.(header := r.header[name := value])
               case None => r.(state := BODY);
      Some(if left <= 2 then h.(state := FINISH) else h)
    case BODY => Some(r.(body := line, state := FINISH))
    case FINISH => Some(r)
  }

  datatype Outcome = Outcome(ok: bool, request: Request, rest: string)

  /** What the loop makes of the text s from request r: its answer, the request and the text left over. */
  function Consume(r: Request, s: string): Outcome
    decreases |s|
  {
    if s == "" || r.state == FINISH then Outcome(true, r, s)
    else
      var e := FindCrlf(s);
      match TakeLine(r, s[..e], |s|)
      case None => Outcome(false, r, s)
      case Some(t) => if e == |s| then Outcome(true, t, s) else Consume(t, s[e + 2..])
  }

  function Parse(s: string): Outcome {
    if s == "" then Outcome(false, FRESH, s) else Consume(FRESH, s)
  }

  /** The part of a text that its request uses up. */
  function Used(s: string): string {
    var rest := Parse(s).rest;
    if |rest| <= |s| then s[..|s| - |rest|] else ""
  }

  /** Parsing cuts a text in two. */
  lemma UsedThenRest(s: string)
    ensures s == Used(s) + Parse(s).rest
  {
    hide Consume;
    if s != "" {
      RestIsEnd(FRESH, s);
    }
  }

  lemma {:induction false} RestIsEnd(r: Request, s: string)
    ensures |Consume(r, s).rest| <= |s|
    ensures Consume(r, s).rest == s[|s| - |Consume(r, s).rest|..]
    decreases |s|
  {
    if s != "" && r.state != FINISH {
      var e := FindCrlf(s);
      var t := TakeLine(r, s[..e], |s|);
      if t.Some? && e < |s| {
        RestIsEnd(t.value, s[e + 2..]);
      }
    }
  }

  // ---------- the splits are the regular expressions ----------

  predicate Spaceless(s: string) {
    ' ' !in s
  }

  function RequestLine(m: string, p: string, v: string): string {
    m + [' '] + (p + [' '] + (HTTP_SLASH + v))
  }

  lemma PrintedLineSplits(m: string, p: string, v: string)
    requires Spaceless(m) && Spaceless(p) && Spaceless(v)
    ensures SplitRequestLine(RequestLine(m, p, v)) == Some((m, p, v))
  {
    var line, last := RequestLine(m, p, v), HTTP_SLASH + v;
    var tail := p + [' '] + last;
    assert Find(line, ' ') == |m| && line[..|m|] == m && line[|m| + 1..] == tail by {
      FindAfter(m, ' ', tail);
      AfterCut(m, ' ', tail);
    }
    assert Find(tail, ' ') == |p| && tail[..|p|] == p && tail[|p| + 1..] == last by {
      FindAfter(p, ' ', last);
      AfterCut(p, ' ', last);
    }
    assert HTTP_SLASH <= last && Spaceless(last) && last[|HTTP_SLASH|..] == v by {
      assert Spaceless(HTTP_SLASH);
    }
  }

  lemma SplitLineIsPrinted(line: string, m: string, p: string, v: string)
    requires SplitRequestLine(line) == Some((m, p, v))
    ensures Spaceless(m) && Spaceless(p) && Spaceless(v)
    ensures line == RequestLine(m, p, v)
  {
    var i := Find(line, ' ');
    var tail := line[i + 1..];
    var j := Find(tail, ' ');
    var last := tail[j + 1..];
    Cut(line, i);
    Cut(tail, j);
    Prefix(HTTP_SLASH, last);
    assert line == m + [' '] + (p + [' '] + (HTTP_SLASH + v));
  }

  lemma AfterCut(a: string, c: char, b: string)
    ensures (a + [c] + b)[..|a|] == a && (a + [c] + b)[|a| + 1..] == b
  {
  }

  lemma Cut(s: string, k: nat)
    requires k < |s|
    ensures s == s[..k] + [s[k]] + s[k + 1..]
  {
  }

  lemma Prefix(a: string, s: string)
    requires a <= s
    ensures s == a + s[|a|..]
    ensures forall c | c !in s :: c !in s[|a|..]
  {
  }

  lemma RequestLineSplitsIff(line: string, m: string, p: string, v: string)
    ensures SplitRequestLine(line) == Some((m, p, v))
       <==> Spaceless(m) && Spaceless(p) && Spaceless(v) && line == RequestLine(m, p, v)
  {
    if SplitRequestLine(line) == Some((m, p, v)) {
      SplitLineIsPrinted(line, m, p, v);
    } else if Spaceless(m) && Spaceless(p) && Spaceless(v) && line == RequestLine(m, p, v) {
      PrintedLineSplits(m, p, v);
    }
  }

  predicate HeaderForm(line: string, name: string, value: string) {
    && ':' !in name && LineSafe(value)
    && (line == name + [':'] + ([' '] + value)
        || (line == name + [':'] + value && (value == "" || value[0] != ' ')))
  }

  lemma HeaderSplitsIff(line: string, name: string, value: string)
    ensures SplitHeader(line) == Some((name, value)) <==> HeaderForm(line, name, value)
  {
    if HeaderForm(line, name, value) {
      var tail := if line == name + [':'] + ([' '] + value) then [' '] + value else value;
      FindAfter(name, ':', tail);
      AfterCut(name, ':', tail);
    }
    if SplitHeader(line) == Some((name, value)) {
      var i := Find(line, ':');
      Cut(line, i);
      var tail := line[i + 1..];
      if tail != "" && tail[0] == ' ' {
        Cut(tail, 0);
        assert tail == [' '] + value;
      }
    }
  }

  /** A text is accepted exactly when its first line has the form of a request line. */
  lemma {:induction false} AcceptedIff(s: string)
    ensures Parse(s).ok <==>
      exists m, p, v :: Spaceless(m) && Spaceless(p) && Spaceless(v)
        && s[..FindCrlf(s)] == RequestLine(m, p, v)
  {
    var line := s[..FindCrlf(s)];
    match SplitRequestLine(line)
    case Some((m, p, v)) =>
      RequestLineSplitsIff(line, m, p, v);
      var t := TakeLine(FRESH, line, |s|).value;
      if FindCrlf(s) < |s| {
        OnlyFirstLineRejects(t, s[FindCrlf(s) + 2..]);
      }
    case None =>
      forall m, p, v | Spaceless(m) && Spaceless(p) && Spaceless(v)
        ensures line != RequestLine(m, p, v)
      {
        RequestLineSplitsIff(line, m, p, v);
      }
  }

  lemma {:induction false} OnlyFirstLineRejects(r: Request, s: string)
    requires r.state != REQUEST_LINE
    ensures Consume(r, s).ok
    decreases |s|
  {
    if s != "" && r.state != FINISH {
      var e := FindCrlf(s);
      var t := TakeLine(r, s[..e], |s|).value;
      if e < |s| {
        OnlyFirstLineRejects(t, s[e + 2..]);
      }
    }
  }

  // ---------- printing a request, and reading it back ----------

  datatype Header = Header(name: string, value: string)

  function HeaderText(hs: seq<Header>): string {
    if hs == [] then "" else Field(hs[0].name, hs[0].value) + CRLF + HeaderText(hs[1..])
  }

  function Print(m: string, p: string, v: string, hs: seq<Header>, body: string): string {
    RequestLine(m, p, v) + CRLF + HeaderText(hs) + CRLF + body
  }

  predicate Printable(m: string, p: string, v: string, hs: seq<Header>) {
    && Spaceless(m) && Spaceless(p) && Spaceless(v)
    && NoCrlf(RequestLine(m, p, v))
    && forall h | h in hs :: ':' !in h.name && NoCrlf(Field(h.name, h.value)) && LineSafe(h.value)
  }

  /** Of headers with one name the last wins. */
  function HeaderMap(hs: seq<Header>, start: map<string, string>): map<string, string> {
    if hs == [] then start else HeaderMap(hs[1..], start[hs[0].name := hs[0].value])
  }

  lemma {:induction false} LastHeaderWins(hs: seq<Header>, start: map<string, string>, name: string)
    ensures name in HeaderMap(hs, start) <==> name in start || exists i :: 0 <= i < |hs| && hs[i].name == name
    ensures forall i | 0 <= i < |hs| && hs[i].name == name && (forall j | i < j < |hs| :: hs[j].name != name) ::
      name in HeaderMap(hs, start) && HeaderMap(hs, start)[name] == hs[i].value
    ensures (forall i | 0 <= i < |hs| :: hs[i].name != name) && name in start ==>
      name in HeaderMap(hs, start) && HeaderMap(hs, start)[name] == start[name]
  {
    if hs != [] {
      LastHeaderWins(hs[1..], start[hs[0].name := hs[0].value], name);
      assert forall i | 1 <= i < |hs| :: hs[i] == hs[1..][i - 1];
      assert forall i | 0 <= i < |hs[1..]| :: hs[1..][i] == hs[i + 1];
    }
  }

  lemma {:induction false} HeadersReadBack(r: Request, hs: seq<Header>, body: string)
    requires r.state == HEADERS
    requires forall h | h in hs :: ':' !in h.name && NoCrlf(Field(h.name, h.value)) && LineSafe(h.value)
    ensures var s := HeaderText(hs) + CRLF + body;
            var t := r.(header := HeaderMap(hs, r.header));
            Consume(r, s) == if body == "" then Outcome(true, t.(state := FINISH), "")
                             else Consume(t.(state := BODY), body)
    decreases |hs|
  {
    var s := HeaderText(hs) + CRLF + body;
    if hs == [] {
      assert s == "" + CRLF + body;
      FindCrlfAfter("", body);
      assert s[..0] == "" && s[2..] == body;
    } else {
      var h := hs[0];
      var line := Field(h.name, h.value);
      var tail := HeaderText(hs[1..]) + CRLF + body;
      assert s == line + CRLF + tail;
      FindCrlfAfter(line, tail);
      assert s[..|line|] == line && s[|line| + 2..] == tail;
      HeaderSplitsIff(line, h.name, h.value);
      HeadersReadBack(r.(header := r.header[h.name := h.value]), hs[1..], body);
    }
  }

  /**
   What is printed is read back: method, normalised path, version and last-wins headers, the
   parser finished. Without a body the text is used up; a body is taken up to its first line
   end, and stays in the buffer when it has none.
   */
  lemma PrintedIsReadBack(m: string, p: string, v: string, hs: seq<Header>, body: string)
    requires Printable(m, p, v, hs)
    ensures var o := Parse(Print(m, p, v, hs, body));
            && o.ok
            && o.request == Request(FINISH, m, NormalPath(p), v, body[..FindCrlf(body)], HeaderMap(hs, map[]))
            && o.rest == if FindCrlf(body) == |body| then body else body[FindCrlf(body) + 2..]
  {
    PrintStartsWithLine(m, p, v, hs, body);
    RequestLineReadBack(m, p, v, HeaderText(hs) + CRLF + body);
    HeadersReadBack(AfterRequestLine(m, p, v), hs, body);
    if body != "" {
      BodyLineReadBack(AfterRequestLine(m, p, v).(header := HeaderMap(hs, map[]), state := BODY), body);
    }
  }

  lemma PrintStartsWithLine(m: string, p: string, v: string, hs: seq<Header>, body: string)
    ensures Print(m, p, v, hs, body) == RequestLine(m, p, v) + CRLF + (HeaderText(hs) + CRLF + body)
  {
  }

  lemma BodyLineReadBack(r: Request, body: string)
    requires r.state == BODY && body != ""
    ensures Consume(r, body) == Outcome(true, r.(body := body[..FindCrlf(body)], state := FINISH),
                                        if FindCrlf(body) == |body| then body else body[FindCrlf(body) + 2..])
  {
  }

  function AfterRequestLine(m: string, p: string, v: string): Request {
    Request(HEADERS, m, NormalPath(p), v, "", map[])
  }

  lemma RequestLineReadBack(m: string, p: string, v: string, tail: string)
    requires Spaceless(m) && Spaceless(p) && Spaceless(v) && NoCrlf(RequestLine(m, p, v))
    ensures Parse(RequestLine(m, p, v) + CRLF + tail) == Consume(AfterRequestLine(m, p, v), tail)
  {
    var line := RequestLine(m, p, v);
    var s := line + CRLF + tail;
    FindCrlfAfter(line, tail);
    assert s[..|line|] == line && s[|line| + 2..] == tail;
    RequestLineSplitsIff(line, m, p, v);
    assert TakeLine(FRESH, line, |s|) == Some(AfterRequestLine(m, p, v));
  }

  /** A body without a line end is the body, whole; it is also what the next request will start with. */
  lemma BodyReadBack(m: string, p: string, v: string, hs: seq<Header>, body: string)
    requires Printable(m, p, v, hs) && NoCrlf(body)
    ensures var o := Parse(Print(m, p, v, hs, body)); o.request.body == body && o.rest == body
  {
    PrintedIsReadBack(m, p, v, hs, body);
    FindCrlfNothing(body);
  }

  /** A printed request is kept alive exactly in HTTP/1.1 with keep-alive as its last word on the connection. */
  lemma KeptAliveIff(m: string, p: string, v: string, hs: seq<Header>, body: string)
    requires Printable(m, p, v, hs)
    ensures KeepAlive(Parse(Print(m, p, v, hs, body)).request) <==>
              v == "1.1" && exists i :: 0 <= i < |hs| && hs[i] == Header("Connection", "keep-alive")
                                        && forall j | i < j < |hs| :: hs[j].name != "Connection"
  {
    PrintedIsReadBack(m, p, v, hs, body);
    LastHeaderWins(hs, map[], "Connection");
    if exists i :: 0 <= i < |hs| && hs[i].name == "Connection" {
      var i := LastOf(hs, "Connection");
      assert HeaderMap(hs, map[])["Connection"] == hs[i].value;
    }
  }

  lemma {:induction false} LastOf(hs: seq<Header>, name: string) returns (i: nat)
    requires exists k :: 0 <= k < |hs| && hs[k].name == name
    ensures i < |hs| && hs[i].name == name && forall j | i < j < |hs| :: hs[j].name != name
  {
    i := |hs| - 1;
    if hs[i].name != name {
      var k :| 0 <= k < |hs| && hs[k].name == name;
      assert hs[..i][k].name == name;
      i := LastOf(hs[..i], name);
    }
  }

  // ---------- the path ----------

  /** Later lines change nothing of what the first line gave. */
  lemma {:induction false} LaterLinesKeep(r: Request, s: string)
    requires r.state != REQUEST_LINE
    ensures var t := Consume(r, s).request; t.method_ == r.method_ && t.path == r.path && t.version == r.version
    decreases |s|
  {
    if s != "" && r.state != FINISH {
      var e := FindCrlf(s);
      var t := TakeLine(r, s[..e], |s|).value;
      if e < |s| {
        LaterLinesKeep(t, s[e + 2..]);
      }
    }
  }

  /**
   Method, path and version of any accepted text are those of its first line, but for the path: the root
   is the index page, the six names of pages get their suffix, and every other path stays as it is.
   */
  lemma FirstLineDecides(s: string, m: string, p: string, v: string)
    requires Spaceless(m) && Spaceless(p) && Spaceless(v) && s[..FindCrlf(s)] == RequestLine(m, p, v)
    ensures var r := Parse(s).request;
            && r.method_ == m && r.version == v
            && (p == "/" ==> r.path == "/index.html")
            && (p == "/index" ==> r.path == "/index.html")
            && (p == "/register" ==> r.path == "/register.html")
            && (p == "/login" ==> r.path == "/login.html")
            && (p == "/welcome" ==> r.path == "/welcome.html")
            && (p == "/video" ==> r.path == "/video.html")
            && (p == "/picture" ==> r.path == "/picture.html")
            && (p !in ["/", "/index", "/register", "/login", "/welcome", "/video", "/picture"] ==> r.path == p)
  {
    hide NormalPath, Parse, RequestLine;
    FirstLineIsKept(s, m, p, v);
    PagesAre(p);
  }

  lemma FirstLineIsKept(s: string, m: string, p: string, v: string)
    requires Spaceless(m) && Spaceless(p) && Spaceless(v) && s[..FindCrlf(s)] == RequestLine(m, p, v)
    ensures var r := Parse(s).request; r.method_ == m && r.path == NormalPath(p) && r.version == v
  {
    hide NormalPath, SplitRequestLine, SplitHeader, RequestLine;
    var e := FindCrlf(s);
    LineIsLong(m, p, v);
    RequestLineSplitsIff(s[..e], m, p, v);
    var t := FRESH.(method_ := m, path := NormalPath(p), version := v, state := HEADERS);
    assert TakeLine(FRESH, s[..e], |s|) == Some(t);
    if e < |s| {
      LaterLinesKeep(t, s[e + 2..]);
    }
  }

  lemma LineIsLong(m: string, p: string, v: string)
    ensures RequestLine(m, p, v) != ""
  {
  }

  lemma PagesAre(p: string)
    ensures p == "/" ==> NormalPath(p) == "/index.html"
    ensures p == "/index" ==> NormalPath(p) == "/index.html"
    ensures p == "/register" ==> NormalPath(p) == "/register.html"
    ensures p == "/login" ==> NormalPath(p) == "/login.html"
    ensures p == "/welcome" ==> NormalPath(p) == "/welcome.html"
    ensures p == "/video" ==> NormalPath(p) == "/video.html"
    ensures p == "/picture" ==> NormalPath(p) == "/picture.html"
    ensures p !in ["/", "/index", "/register", "/login", "/welcome", "/video", "/picture"] ==> NormalPath(p) == p
  {
  }

  /** So is the path of a printed request read back, whatever its headers and body. */
  lemma PathReadBack(m: string, p: string, v: string, hs: seq<Header>, body: string)
    requires Printable(m, p, v, hs)
    ensures var path := Parse(Print(m, p, v, hs, body)).request.path;
            && (p == "/" ==> path == "/index.html")
            && (p in ["/index", "/register", "/login", "/welcome", "/video", "/picture"] ==> path == p + ".html")
            && (p !in ["/", "/index", "/register", "/login", "/welcome", "/video", "/picture"] ==> path == p)
  {
    PrintedIsReadBack(m, p, v, hs, body);
    PagesAre(p);
  }

  // ---------- what an accepted text gives ----------

  /** Every part is what a printed request could have: no part reaches over a space or a line end that ends it. */
  ghost predicate Clean(r: Request) {
    && Spaceless(r.method_) && Spaceless(r.path) && Spaceless(r.version)
    && NoCrlf(r.method_) && NoCrlf(r.path) && NoCrlf(r.version) && NoCrlf(r.body)
    && forall name | name in r.header :: ':' !in name && NoCrlf(name) && LineSafe(r.header[name])
  }

  lemma PartOfLine(s: string, i: nat, j: nat)
    requires i <= j <= |s| && NoCrlf(s)
    ensures NoCrlf(s[i..j])
  {
  }

  lemma NormalPathIsClean(path: string)
    requires Spaceless(path) && NoCrlf(path)
    ensures Spaceless(NormalPath(path)) && NoCrlf(NormalPath(path))
  {
    if path in DEFAULT_HTML {
      LineSafeHasNoCrlf(path + ".html");
    }
  }

  lemma PartsAreClean(m: string, p: string, v: string)
    requires NoCrlf(RequestLine(m, p, v))
    ensures NoCrlf(m) && NoCrlf(p) && NoCrlf(v)
  {
    var line := RequestLine(m, p, v);
    assert m == line[0..|m|] && p == line[|m| + 1..|m| + 1 + |p|] && v == line[|line| - |v|..|line|];
    PartOfLine(line, 0, |m|);
    PartOfLine(line, |m| + 1, |m| + 1 + |p|);
    PartOfLine(line, |line| - |v|, |line|);
  }

  lemma TakenLineIsClean(r: Request, line: string, left: nat)
    requires Clean(r) && NoCrlf(line)
    ensures TakeLine(r, line, left).Some? ==> Clean(TakeLine(r, line, left).value)
  {
    match r.state
    case REQUEST_LINE =>
      match SplitRequestLine(line) {
        case Some((m, p, v)) =>
          SplitLineIsPrinted(line, m, p, v);
          PartsAreClean(m, p, v);
          NormalPathIsClean(p);
        case None =>
      }
    case HEADERS =>
      match SplitHeader(line) {
        case Some((name, value)) =>
          HeaderSplitsIff(line, name, value);
          PartOfLine(line, 0, |name|);
          assert name == line[0..|name|];
        case None =>
      }
    case _ =>
  }

  lemma {:induction false} ConsumedIsClean(r: Request, s: string)
    requires Clean(r)
    ensures Clean(Consume(r, s).request)
    decreases |s|
  {
    if s != "" && r.state != FINISH {
      var e := FindCrlf(s);
      FindCrlfIsFirst(s);
      TakenLineIsClean(r, s[..e], |s|);
      var t := TakeLine(r, s[..e], |s|);
      if t.Some? && e < |s| {
        ConsumedIsClean(t.value, s[e + 2..]);
      }
    }
  }

  /** Whatever the text, no part of the request holds a line end, nor what ends that part on its line. */
  lemma ParsedIsClean(s: string)
    ensures Clean(Parse(s).request)
  {
    ConsumedIsClean(FRESH, s);
  }

  // ---------- the parser as an object ----------

  class HttpRequest {
    var state: State
    var m_method: string
    var m_path: string
    var m_version: string
    var m_body: string
    var m_header: map<string, string>

    ghost function View(): Request
      reads this
    {
      Request(state, m_method, m_path, m_version, m_body, m_header)
    }

    constructor ()
      ensures View() == FRESH
    {
      m_method, m_path, m_version, m_body := "", "", "", "";
      state := REQUEST_LINE;
      m_header := map[];
    }

    method Init()
      modifies this
      ensures View() == FRESH
    {
      m_method, m_path, m_version, m_body := "", "", "", "";
      state := REQUEST_LINE;
      m_header := map[];
    }

    method ParseRequestLine(line: string) returns (ok: bool)
      modifies this
      ensures View() == match SplitRequestLine(line)
                        case None => old(View())
                        case Some((m, p, v)) => old(View()).(method_ := m, path := p, version := v, state := HEADERS)
      ensures ok <==> SplitRequestLine(line).Some?
    {
      match SplitRequestLine(line)
      case Some((m, p, v)) =>
        m_method, m_path, m_version := m, p, v;
        state := HEADERS;
        ok := true;
      case None =>
        ok := false;
    }

    method ParsePath()
      modifies this`m_path
      ensures m_path == NormalPath(old(m_path))
      ensures old(m_path) == "/" ==> m_path == "/index.html"
      ensures old(m_path) in ["/index", "/register", "/login", "/welcome", "/video", "/picture"] ==>
        m_path == old(m_path) + ".html"
    {
      if m_path == "/" {
        m_path := "/index.html";
      } else if m_path in DEFAULT_HTML {
        m_path := m_path + ".html";
      }
    }

    method ParseHeader(line: string)
      modifies this`m_header, this`state
      ensures match SplitHeader(line)
              case Some((name, value)) => m_header == old(m_header)[name := value] && state == old(state)
              case None => m_header == old(m_header) && state == BODY
    {
      match SplitHeader(line)
      case Some((name, value)) => m_header := m_header[name := value];
      case None => state := BODY;
    }

    method ParseBody(line: string)
      modifies this`m_body, this`state
      ensures m_body == line && state == FINISH
    {
      m_body := line;
      state := FINISH;
    }

    /** The switch on the state; `left` is how much the buffer still holds, this line included. */
    method ParseLine(line: string, left: nat) returns (ok: bool)
      modifies this
      ensures ok <==> TakeLine(old(View()), line, left).Some?
      ensures View() == if ok then TakeLine(old(View()), line, left).value else old(View())
    {
      ok := true;
      match state {
        case REQUEST_LINE =>
          ok := ParseRequestLine(line);
          if ok {
            ParsePath();
          }
        case HEADERS =>
          ParseHeader(line);
          if left <= 2 {
            state := FINISH;
          }
        case BODY =>
          ParseBody(line);
        case FINISH =>
      }
    }

    /** Reads as much of the buffer as makes a request, and leaves there what the parser leaves. */
    method ParseRequest(buff: Buffer) returns (ok: bool)
      requires buff.Valid()
      modifies this, buff`readPos
      ensures buff.Valid()
      ensures Outcome(ok, View(), buff.Contents())
           == if old(buff.Contents()) == "" then Outcome(false, old(View()), "")
              else Consume(old(View()), old(buff.Contents()))
    {
      if buff.ReadableBytes() <= 0 {
        return false;
      }
      while buff.ReadableBytes() > 0 && state != FINISH
        invariant buff.Valid() && buff.buffer == old(buff.buffer) && buff.writePos == old(buff.writePos)
        invariant Consume(View(), buff.Contents()) == Consume(old(View()), old(buff.Contents()))
        decreases buff.ReadableBytes()
      {
        var s := buff.buffer[buff.readPos..buff.writePos];
        var lineEnd := buff.readPos + FindCrlf(s);
        var line := s[..FindCrlf(s)];
        var accepted := ParseLine(line, buff.ReadableBytes());
        if !accepted {
          return false;
        }
        if lineEnd == buff.writePos {
          break;
        }
        buff.RetrieveUntil(lineEnd + 2);
      }
      return true;
    }

    function IsKeepAlive(): (r: bool)
      reads this
      ensures r == KeepAlive(View())
    {
      if "Connection" in m_header then m_header["Connection"] == "keep-alive" && m_version == "1.1" else false
    }
  }
}
