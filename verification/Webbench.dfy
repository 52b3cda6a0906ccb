/** The benchmark's request builder: C strings in fixed arrays, and what the server reads from them. */
module Webbench {
  import opened Options
  import opened Text
  import opened Requests

  const REQUEST_SIZE: nat := 2048
  const MAXHOSTNAMELEN: nat := 64
  const MAX_URL: nat := 1500
  const AGENT: string := "WebBench 1.5"

  /** 0: HTTP/0.9, 1: HTTP/1.0, 2: HTTP/1.1. */
  type Http = p: int | 0 <= p <= 2

  datatype Method = GET | HEAD | OPTIONS | TRACE

  datatype Result = Built | InvalidUrl | TooLong | NotHttp | NoSlash

  /** The string a C array holds: everything before the first NUL. */
  function CStr(a: seq<char>): string {
    a[..Text.Find(a, '\0')]
  }

  ghost predicate Terminated(a: seq<char>) {
    '\0' in a
  }

  function FindStr(s: string, pat: string): (k: nat)
    ensures k <= |s|
    ensures k < |s| ==> pat <= s[k..]
    ensures forall i | 0 <= i < k :: !(pat <= s[i..])
  {
    if s == "" || pat <= s then 0
    else
      var k := 1 + FindStr(s[1..], pat);
      assert forall i | 1 <= i < k :: s[i..] == s[1..][i - 1..];
      k
  }

  function ToLower(c: char): char {
    if 'A' <= c <= 'Z' then (c as int + 32) as char else c
  }

  predicate StartsWithHttp(url: string) {
    |url| >= 7 && forall k | 0 <= k < 7 :: ToLower(url[k]) == "http://"[k]
  }

  function MethodName(m: Method): string {
    match m
    case GET => "GET"
    case HEAD => "HEAD"
    case OPTIONS => "OPTIONS"
    case TRACE => "TRACE"
  }

  /** HEAD needs HTTP/1.0 at least, OPTIONS and TRACE need HTTP/1.1. */
  function Protocol(m: Method, http10: Http): Http {
    if m == HEAD && http10 < 1 then 1
    else if (m == OPTIONS || m == TRACE) && http10 < 2 then 2
    else http10
  }

  function Version(http10: Http): string {
    if http10 == 1 then "1.0" else "1.1"
  }

  /** The checks in the order of the code. */
  function Check(url: string): Result {
    if FindStr(url, "://") == |url| then InvalidUrl
    else if |url| > MAX_URL then TooLong
    else if !StartsWithHttp(url) then NotHttp
    else if '/' !in url[FindStr(url, "://") + 3..] then NoSlash
    else Built
  }

  function Authority(url: string): string
    requires |url| >= 7
  {
    url[7..][..Text.Find(url[7..], '/')]
  }

  function Host(url: string): string
    requires |url| >= 7
  {
    Authority(url)[..Text.Find(Authority(url), ':')]
  }

  function Path(url: string): string
    requires |url| >= 7
  {
    url[7..][Text.Find(url[7..], '/')..]
  }

  function Headers(url: string, http10: Http): seq<Header>
    requires |url| >= 7
  {
    [Header("User-Agent", AGENT), Header("Host", Host(url))]
    + if http10 > 1 then [Header("Connection", "close")] else []
  }

  /** The text for an accepted URL. HTTP/0.9 has a bare line. */
  function RequestText(m: Method, url: string, http10: Http): string
    requires |url| >= 7
  {
    if http10 > 0 then Print(MethodName(m), Path(url), Version(http10), Headers(url, http10), "")
    else MethodName(m) + [' '] + Path(url) + CRLF
  }

  const AGENT_LINE: string := "User-Agent: WebBench 1.5\r\n"
  const CLOSE_LINE: string := "Connection: close\r\n"

  /** The same text as the builder puts it together. */
  function EndedLine(line: string, http10: Http): string {
    (if http10 == 1 then line + " HTTP/1.0" else if http10 == 2 then line + " HTTP/1.1" else line) + CRLF
  }

  function WithHeaders(text: string, host: string, http10: Http): string {
    if http10 == 0 then text
    else if http10 == 1 then text + AGENT_LINE + "Host: " + host + CRLF + CRLF
    else text + AGENT_LINE + "Host: " + host + CRLF + CLOSE_LINE + CRLF
  }

  lemma AssembledIsPrinted(m: Method, url: string, http10: Http)
    requires |url| >= 7
    ensures WithHeaders(EndedLine(MethodName(m) + " " + Path(url), http10), Host(url), http10)
         == RequestText(m, url, http10)
  {
    var name, path := MethodName(m), Path(url);
    if http10 > 0 {
      LineEnds(name, path, http10);
      HeadersFollow(RequestLine(name, path, Version(http10)) + CRLF, url, http10);
      NothingAfter(RequestLine(name, path, Version(http10)) + CRLF + HeaderText(Headers(url, http10)) + CRLF);
    }
  }

  lemma NothingAfter(s: string)
    ensures s + "" == s
  {
  }

  lemma LineEnds(name: string, path: string, http10: Http)
    requires http10 > 0
    ensures EndedLine(name + " " + path, http10) == RequestLine(name, path, Version(http10)) + CRLF
  {
    var protocol := if http10 == 1 then " HTTP/1.0" else " HTTP/1.1";
    assert protocol == [' '] + (HTTP_SLASH + Version(http10));
    assert name + " " + path + protocol == RequestLine(name, path, Version(http10));
  }

  lemma HeadersFollow(text: string, url: string, http10: Http)
    requires |url| >= 7 && http10 > 0
    ensures WithHeaders(text, Host(url), http10) == text + HeaderText(Headers(url, http10)) + CRLF
  {
    var close := if http10 > 1 then CLOSE_LINE else "";
    var host := Host(url);
    var hostLine := "Host: " + host + CRLF;
    HeadersOf(url, http10, close);
    HostLine(host);
    AgentLine();
    FourParts(text, AGENT_LINE, "Host: ", host);
    assert text + (AGENT_LINE + (hostLine + close)) == text + AGENT_LINE + "Host: " + host + CRLF + close;
    NothingAfter(text + AGENT_LINE + "Host: " + host + CRLF);
  }

  lemma FourParts(text: string, a: string, b: string, c: string)
    ensures text + (a + (b + c)) == text + a + b + c
  {
  }

  lemma AgentLine()
    ensures AGENT_LINE == Field("User-Agent", AGENT) + CRLF
  {
  }

  lemma HostLine(host: string)
    ensures "Host: " + host + CRLF == Field("Host", host) + CRLF
  {
    assert "Host: " == "Host" + [':'] + [' '];
    assert "Host: " + host == "Host" + [':'] + ([' '] + host);
  }

  lemma HeadersOf(url: string, http10: Http, close: string)
    requires |url| >= 7 && http10 > 0
    requires close == if http10 > 1 then CLOSE_LINE else ""
    ensures HeaderText(Headers(url, http10))
         == Field("User-Agent", AGENT) + CRLF + (Field("Host", Host(url)) + CRLF + close)
  {
    var hs := Headers(url, http10);
    assert hs[0] == Header("User-Agent", AGENT) && hs[1..][0] == Header("Host", Host(url));
    if http10 > 1 {
      assert hs[1..][1..] == [Header("Connection", "close")];
      CloseText();
    } else {
      assert hs[1..][1..] == [] && HeaderText([]) == "";
      assert HeaderText(hs[1..]) == Field(hs[1].name, hs[1].value) + CRLF + HeaderText(hs[1..][1..]);
    }
  }

  lemma CloseText()
    ensures HeaderText([Header("Connection", "close")]) == CLOSE_LINE
  {
    assert CLOSE_LINE == Field("Connection", "close") + CRLF;
    assert HeaderText([Header("Connection", "close")]) == CLOSE_LINE + "";
  }

  lemma DelimiterOfHttp(url: string)
    requires StartsWithHttp(url)
    ensures FindStr(url, "://") == 4
  {
    assert "http://"[4] == ':' && "http://"[5] == '/' && "http://"[6] == '/';
    assert "http://"[0] == 'h' && "http://"[1] == 't' && "http://"[2] == 't' && "http://"[3] == 'p';
    assert url[4] == ':' && url[5] == '/' && url[6] == '/';
    assert url[4..][..3] == "://";
    assert forall i | 0 <= i < 4 :: url[i] != ':';
    forall i | 0 <= i < 4 ensures !("://" <= url[i..]) {
      assert url[i..][0] == url[i] && "://"[0] == ':';
    }
  }

  lemma FindIs(s: string, c: char, k: nat)
    requires k <= |s| && c !in s[..k] && (k < |s| ==> s[k] == c)
    ensures Text.Find(s, c) == k
  {
    if k == |s| {
      assert s[..k] == s;
      FindNothing(s, c);
    } else {
      assert s == s[..k] + [c] + s[k + 1..];
      FindAfter(s[..k], c, s[k + 1..]);
    }
  }

  lemma FindInPrefix(s: string, c: char, n: nat)
    requires n <= |s|
    ensures Text.Find(s[..n], c) == if Text.Find(s, c) < n then Text.Find(s, c) else n
  {
    var k := Text.Find(s, c);
    var m := if k < n then k else n;
    assert s[..n][..m] == s[..m];
    if m < k { assert forall x | x in s[..m] :: x in s[..k]; }
    FindIs(s[..n], c, m);
  }

  lemma PartsOfUrl(url: string)
    requires |url| >= 7
    ensures |Host(url)| <= |Authority(url)| && |Authority(url)| + |Path(url)| == |url| - 7
    ensures forall c | c !in url :: c !in Host(url) && c !in Path(url)
  {
  }

  class Builder {
    const request: array<char>
    const host: array<char>
    var http10: Http

    ghost predicate Valid()
      reads this
    {
      request != host && request.Length == REQUEST_SIZE && host.Length == MAXHOSTNAMELEN
    }

    constructor (http10: Http)
      ensures Valid() && this.http10 == http10 && fresh(request) && fresh(host)
    {
      this.http10 := http10;
      request := new char[REQUEST_SIZE](_ => '\0');
      host := new char[MAXHOSTNAMELEN](_ => '\0');
      new;
      assert request != host;
    }

    static method Bzero(a: array<char>)
      modifies a
      ensures forall k | 0 <= k < a.Length :: a[k] == '\0'
    {
      for k := 0 to a.Length
        invariant forall j | 0 <= j < k :: a[j] == '\0'
      {
        a[k] := '\0';
      }
    }

    /** Writes s from position `at` on, without a terminator: strncpy of a prefix at least that long. */
    static method Put(a: array<char>, at: nat, s: string)
      requires at + |s| <= a.Length
      modifies a
      ensures a[..] == old(a[..at]) + s + old(a[at + |s|..])
    {
      for k := 0 to |s|
        invariant a[..] == old(a[..at]) + s[..k] + old(a[at + k..])
      {
        a[at + k] := s[k];
      }
    }

    /** strncpy of s into a zeroed array it does not fill. */
    static method Strncpy(a: array<char>, s: string)
      requires |s| < a.Length && '\0' !in s && (forall k | 0 <= k < a.Length :: a[k] == '\0')
      modifies a
      ensures CStr(a[..]) == s
    {
      ghost var rest := a[|s|..];
      Put(a, 0, s);
      assert rest == ['\0'] + rest[1..];
      assert a[..] == s + ['\0'] + rest[1..];
      FindAfter(s, '\0', rest[1..]);
    }

    /** strcat: appends behind the terminator and terminates again. */
    static method Strcat(a: array<char>, s: string)
      requires Terminated(a[..]) && '\0' !in s && |CStr(a[..])| + |s| < a.Length
      modifies a
      ensures Terminated(a[..]) && CStr(a[..]) == old(CStr(a[..])) + s
    {
      var at := Text.Find(a[..], '\0');
      ghost var before := a[..];
      assert before[..|before|] == before;
      Put(a, at, s + ['\0']);
      assert a[..] == (before[..at] + s) + ['\0'] + before[at + |s| + 1..];
      FindAfter(before[..at] + s, '\0', before[at + |s| + 1..]);
      assert a[at + |s|] == '\0' && a[..][at + |s|] == '\0';
    }

    /** Clears both arrays, settles the protocol and writes the method. */
    method Start(m: Method)
      requires Valid()
      modifies this`http10, request, host
      ensures http10 == Protocol(m, old(http10))
      ensures Terminated(request[..]) && CStr(request[..]) == MethodName(m) + " "
      ensures (m == GET ==> CStr(request[..]) == "GET ") && (m == HEAD ==> CStr(request[..]) == "HEAD ")
      ensures (m == OPTIONS ==> CStr(request[..]) == "OPTIONS ") && (m == TRACE ==> CStr(request[..]) == "TRACE ")
      ensures forall k | 0 <= k < host.Length :: host[k] == '\0'
    {
      Bzero(host);
      Bzero(request);
      assert request[0] == '\0' && request[..][0] == '\0' && CStr(request[..]) == "";
      if m == HEAD && http10 < 1 { http10 := 1; }
      if m == OPTIONS && http10 < 2 { http10 := 2; }
      if m == TRACE && http10 < 2 { http10 := 2; }
      Strcat(request, MethodName(m));
      Strcat(request, " ");
    }

    /** The host is what precedes the port, or the path when there is no port. */
    method CopyHost(url: string)
      requires Valid() && '\0' !in url && |url| >= 7 && '/' in url[7..] && |Host(url)| < MAXHOSTNAMELEN
      requires forall k | 0 <= k < host.Length :: host[k] == '\0'
      modifies host
      ensures CStr(host[..]) == Host(url)
      ensures var h, rest := CStr(host[..]), url[7..];
              ':' !in h && '/' !in h && |h| < |rest| && h == rest[..|h|] && rest[|h|] in [':', '/']
    {
      PartsOfUrl(url);
      var rest := url[7..];
      var slash, colon := Text.Find(rest, '/'), Text.Find(rest, ':');
      FindInPrefix(rest, ':', slash);
      if colon < slash {
        assert rest[..slash][..colon] == rest[..colon];
        Strncpy(host, rest[..colon]);
      } else {
        Strncpy(host, rest[..slash]);
      }
    }

    method EndLine()
      requires Valid() && Terminated(request[..]) && |CStr(request[..])| < REQUEST_SIZE - 20
      modifies request
      ensures Terminated(request[..]) && CStr(request[..]) == EndedLine(old(CStr(request[..])), http10)
    {
      if http10 == 1 {
        Strcat(request, " HTTP/1.0");
      } else if http10 == 2 {
        Strcat(request, " HTTP/1.1");
      }
      Strcat(request, CRLF);
    }

    method PutHeaders(hostName: string)
      requires Valid() && Terminated(request[..]) && |CStr(request[..])| + |hostName| < REQUEST_SIZE - 60
      requires '\0' !in hostName
      modifies request
      ensures Terminated(request[..]) && CStr(request[..]) == WithHeaders(old(CStr(request[..])), hostName, http10)
    {
      if http10 > 0 {
        Strcat(request, AGENT_LINE);
        Strcat(request, "Host: ");
        Strcat(request, hostName);
        Strcat(request, CRLF);
      }
      if http10 > 1 {
        Strcat(request, CLOSE_LINE);
      }
      if http10 > 0 {
        Strcat(request, CRLF);
      }
    }

    /** Path, protocol and headers of a URL that passed the checks. */
    method WriteRest(url: string)
      requires Valid() && '\0' !in url && 7 <= |url| <= MAX_URL && '/' in url[7..] && |Host(url)| < MAXHOSTNAMELEN
      requires Terminated(request[..]) && |CStr(request[..])| <= 8
      requires forall k | 0 <= k < host.Length :: host[k] == '\0'
      modifies request, host
      ensures Terminated(request[..])
      ensures CStr(request[..]) == WithHeaders(EndedLine(old(CStr(request[..])) + Path(url), http10), Host(url), http10)
    {
      CopyHost(url);
      PartsOfUrl(url);
      Strcat(request, url[7..][Text.Find(url[7..], '/')..]);
      EndLine();
      PutHeaders(CStr(host[..]));
    }

    /**
     Builds the request for a non-proxy URL. Everything fits: only the host has to be short
     enough for its own array.
     */
    method BuildRequest(url: string, m: Method) returns (r: Result)
      requires Valid() && '\0' !in url
      requires Check(url) == Built ==> |Host(url)| < MAXHOSTNAMELEN
      modifies this`http10, request, host
      ensures r == Check(url)
      ensures http10 == Protocol(m, old(http10))
      ensures r == Built ==>
        Terminated(request[..]) && CStr(request[..]) == RequestText(m, url, http10)
    {
      Start(m);
      var delimiter := FindStr(url, "://");
      if delimiter == |url| { return InvalidUrl; }
      if |url| > MAX_URL { return TooLong; }
      if !StartsWithHttp(url) { return NotHttp; }
      var i := delimiter + 3;
      DelimiterOfHttp(url);
      if '/' !in url[i..] { return NoSlash; }
      WriteRest(url);
      AssembledIsPrinted(m, url, http10);
      r := Built;
    }
  }

  // ---------- what the server makes of it ----------

  function HeadersMeant(url: string, http10: Http): map<string, string>
    requires |url| >= 7
  {
    var named := map["User-Agent" := AGENT, "Host" := Host(url)];
    if http10 == 2 then named + map["Connection" := "close"] else named
  }

  /** The request a benchmark URL stands for. */
  function Understood(url: string, m: Method, http10: Http): Request
    requires |url| >= 7
  {
    Request(FINISH, MethodName(m), NormalPath(Path(url)), Version(http10), "", HeadersMeant(url, http10))
  }

  /**
   The HTTP/1.0 and 1.1 texts are read back exactly when the path has no space: same method,
   normalised path, version, host and agent, nothing left over, and never kept alive.
   */
  lemma BenchmarkIsReadBackIff(url: string, m: Method, http10: Http)
    requires |url| >= 7 && LineSafe(url) && http10 > 0
    ensures var o := Parse(RequestText(m, url, http10));
            && (o.ok <==> Spaceless(Path(url)))
            && (o.ok ==> o == Outcome(true, Understood(url, m, http10), "") && !KeepAlive(o.request))
  {
    if Spaceless(Path(url)) {
      BenchmarkParse(url, m, http10);
      HeaderMapOf(url, http10);
    } else {
      SpacedPathIsRejected(url, m, http10);
    }
  }

  lemma SpacedPathIsRejected(url: string, m: Method, http10: Http)
    requires |url| >= 7 && LineSafe(url) && http10 > 0 && !Spaceless(Path(url))
    ensures !Parse(RequestText(m, url, http10)).ok
  {
    var name, path, v, hs := MethodName(m), Path(url), Version(http10), Headers(url, http10);
    BenchmarkLine(url, m, http10);
    SpaceInPathRejects(name, path, v, HeaderText(hs) + CRLF + "");
    PrintStartsWithLine(name, path, v, hs, "");
  }

  lemma BenchmarkLine(url: string, m: Method, http10: Http)
    requires |url| >= 7 && LineSafe(url)
    ensures Spaceless(MethodName(m)) && Spaceless(Version(http10))
    ensures NoCrlf(RequestLine(MethodName(m), Path(url), Version(http10)))
  {
    PartsOfUrl(url);
    assert LineSafe(MethodName(m)) && LineSafe(Version(http10));
    LineSafeHasNoCrlf(RequestLine(MethodName(m), Path(url), Version(http10)));
  }

  lemma BenchmarkParse(url: string, m: Method, http10: Http)
    requires |url| >= 7 && LineSafe(url) && http10 > 0 && Spaceless(Path(url))
    ensures Parse(RequestText(m, url, http10)) == Outcome(true,
      Request(FINISH, MethodName(m), NormalPath(Path(url)), Version(http10), "",
              HeaderMap(Headers(url, http10), map[])), "")
  {
    BenchmarkLine(url, m, http10);
    HeadersPrintable(url, http10);
    PrintedIsReadBack(MethodName(m), Path(url), Version(http10), Headers(url, http10), "");
  }

  lemma HeadersPrintable(url: string, http10: Http)
    requires |url| >= 7 && LineSafe(url) && http10 > 0
    ensures forall h | h in Headers(url, http10) ::
              ':' !in h.name && NoCrlf(Field(h.name, h.value)) && LineSafe(h.value)
  {
    PartsOfUrl(url);
    OnePrintable("User-Agent", AGENT);
    OnePrintable("Host", Host(url));
    OnePrintable("Connection", "close");
  }

  lemma OnePrintable(name: string, value: string)
    requires ':' !in name && LineSafe(name) && LineSafe(value)
    ensures NoCrlf(Field(name, value)) && LineSafe(value)
  {
    LineSafeHasNoCrlf(Field(name, value));
  }

  lemma HeaderMapOf(url: string, http10: Http)
    requires |url| >= 7 && http10 > 0
    ensures HeaderMap(Headers(url, http10), map[]) == HeadersMeant(url, http10)
  {
    var hs := Headers(url, http10);
    var m1: map<string, string> := map["User-Agent" := AGENT];
    assert hs[1..][0] == Header("Host", Host(url));
    var m2 := m1["Host" := Host(url)];
    if http10 == 2 {
      var close := Header("Connection", "close");
      assert hs[1..][1..] == [close] && [close][1..] == [];
      assert HeaderMap(hs, map[]) == HeaderMap([close], m2) == m2["Connection" := "close"];
    } else {
      assert hs[1..][1..] == [];
      assert HeaderMap(hs[1..], m1) == HeaderMap([], m2);
    }
  }

  // ---------- URLs put together ----------

  predicate HttpInAnyCase(scheme: string) {
    && |scheme| == 7 && scheme[0] in ['h', 'H'] && scheme[1] in ['t', 'T'] && scheme[2] in ['t', 'T']
    && scheme[3] in ['p', 'P'] && scheme[4] == ':' && scheme[5] == '/' && scheme[6] == '/'
  }

  function PortText(port: Option<string>): string {
    if port.Some? then ":" + port.value else ""
  }

  function Url(scheme: string, host: string, port: Option<string>, rest: string): string {
    scheme + (host + PortText(port) + ['/'] + rest)
  }

  predicate UrlParts(scheme: string, host: string, port: Option<string>) {
    HttpInAnyCase(scheme) && ':' !in host && '/' !in host && (port.Some? ==> '/' !in port.value)
  }

  lemma StartsWithHttpIff(url: string)
    ensures StartsWithHttp(url) <==> |url| >= 7 && HttpInAnyCase(url[..7])
  {
    assert "http://"[0] == 'h' && "http://"[1] == 't' && "http://"[2] == 't' && "http://"[3] == 'p';
    assert "http://"[4] == ':' && "http://"[5] == '/' && "http://"[6] == '/';
    if |url| >= 7 && HttpInAnyCase(url[..7]) {
      assert url[0] == url[..7][0] && url[1] == url[..7][1] && url[2] == url[..7][2] && url[3] == url[..7][3];
      assert url[4] == url[..7][4] && url[5] == url[..7][5] && url[6] == url[..7][6];
    }
    if StartsWithHttp(url) {
      assert ToLower(url[0]) == 'h' && ToLower(url[1]) == 't' && ToLower(url[2]) == 't' && ToLower(url[3]) == 'p';
      assert ToLower(url[4]) == ':' && ToLower(url[5]) == '/' && ToLower(url[6]) == '/';
    }
  }

  lemma PathComesApart(url: string, authority: string, rest: string)
    requires |url| >= 7 && url[7..] == authority + ['/'] + rest && '/' !in authority
    ensures Authority(url) == authority && Path(url) == "/" + rest
  {
    FindAfter(authority, '/', rest);
    AfterCut(authority, '/', rest);
    assert Path(url) == ['/'] + rest;
  }

  lemma HostComesApart(url: string, host: string, port: Option<string>)
    requires |url| >= 7 && Authority(url) == host + PortText(port) && ':' !in host
    ensures Host(url) == host
  {
    hide Authority;
    if port.Some? {
      assert host + PortText(port) == host + [':'] + port.value;
      FindAfter(host, ':', port.value);
    } else {
      assert host + PortText(port) == host;
      FindNothing(host, ':');
    }
  }

  lemma GoodUrlIsBuilt(url: string)
    requires |url| >= 7 && HttpInAnyCase(url[..7]) && '/' in url[7..]
    ensures Check(url) == if |url| <= 1500 then Built else TooLong
  {
    StartsWithHttpIff(url);
    DelimiterOfHttp(url);
  }

  /** The builder takes a URL apart as it was put together. */
  lemma UrlComesApart(scheme: string, host: string, port: Option<string>, rest: string)
    requires UrlParts(scheme, host, port)
    ensures var url := Url(scheme, host, port, rest);
            Host(url) == host && Path(url) == "/" + rest && Check(url) == if |url| <= 1500 then Built else TooLong
  {
    hide Host, Path, Check, Authority;
    var url, authority := Url(scheme, host, port, rest), host + PortText(port);
    assert url[7..] == authority + ['/'] + rest && url[..7] == scheme;
    assert '/' in url[7..] by {
      assert (authority + ['/'] + rest)[|authority|] == '/';
    }
    PathComesApart(url, authority, rest);
    HostComesApart(url, host, port);
    GoodUrlIsBuilt(url);
  }

  function HostHeaders(host: string, v: string): map<string, string> {
    var named := map["User-Agent" := "WebBench 1.5", "Host" := host];
    if v == "1.1" then named + map["Connection" := "close"] else named
  }

  /** HTTP/1.1 when asked for, and for OPTIONS and TRACE; else HTTP/1.0. */
  function VersionAsked(m: Method, start: Http): string {
    if start == 2 || m == OPTIONS || m == TRACE then "1.1" else "1.0"
  }

  lemma UnderstoodIs(scheme: string, host: string, port: Option<string>, rest: string, m: Method, start: Http)
    requires UrlParts(scheme, host, port) && (start > 0 || m != GET)
    ensures var r, v := Understood(Url(scheme, host, port, rest), m, Protocol(m, start)), VersionAsked(m, start);
            && (m == GET ==> r.method_ == "GET") && (m == HEAD ==> r.method_ == "HEAD")
            && (m == OPTIONS ==> r.method_ == "OPTIONS") && (m == TRACE ==> r.method_ == "TRACE")
            && r == Request(FINISH, r.method_, NormalPath("/" + rest), v, "", HostHeaders(host, v))
  {
    UrlComesApart(scheme, host, port, rest);
    assert "1.0"[2] != "1.1"[2];
  }

  /**
   What the server reads from the request for a URL put together from its parts: the method asked for, the path
   behind the host, and the host without its port. In HTTP/0.9 a GET is a bare line.
   */
  lemma AskedFor(scheme: string, host: string, port: Option<string>, rest: string, m: Method, start: Http)
    requires UrlParts(scheme, host, port)
    ensures var url := Url(scheme, host, port, rest);
            var text, v := RequestText(m, url, Protocol(m, start)), VersionAsked(m, start);
            && (m == GET && start == 0 ==> text == "GET /" + rest + CRLF)
            && (LineSafe(url) && (m != GET || start != 0) ==>
                 var o := Parse(text);
                 && (o.ok <==> Spaceless(rest))
                 && (o.ok ==>
                      var r := o.request;
                      && (m == GET ==> r.method_ == "GET") && (m == HEAD ==> r.method_ == "HEAD")
                      && (m == OPTIONS ==> r.method_ == "OPTIONS") && (m == TRACE ==> r.method_ == "TRACE")
                      && r == Request(FINISH, r.method_, NormalPath("/" + rest), v, "", HostHeaders(host, v))
                      && o.rest == ""))
  {
    hide RequestText, Understood, Parse, Host;
    var url := Url(scheme, host, port, rest);
    UrlComesApart(scheme, host, port, rest);
    if m == GET && start == 0 {
      BareText(url, rest);
    } else if LineSafe(url) {
      UnderstoodIs(scheme, host, port, rest, m, start);
      BenchmarkIsReadBackIff(url, m, Protocol(m, start));
      assert Spaceless("/" + rest) <==> Spaceless(rest);
    }
  }

  lemma BareText(url: string, rest: string)
    requires |url| >= 7 && Path(url) == "/" + rest
    ensures RequestText(GET, url, 0) == "GET /" + rest + CRLF
  {
    assert "GET" + [' '] + ("/" + rest) == "GET /" + rest;
  }

  /** Which URLs the builder takes: http in any case, a host, a slash, and no more than 1500 characters. */
  lemma BuiltIff(url: string)
    ensures Check(url) == Built <==>
      exists authority, rest ::
        && '/' !in authority && |url| >= 7 && HttpInAnyCase(url[..7]) && |url| <= 1500
        && url[7..] == authority + ['/'] + rest
  {
    StartsWithHttpIff(url);
    if StartsWithHttp(url) {
      DelimiterOfHttp(url);
      var tail := url[7..];
      var k := Text.Find(tail, '/');
      if k < |tail| {
        Cut(tail, k);
        assert url[7..] == tail[..k] + ['/'] + tail[k + 1..];
      } else {
        assert tail[..k] == tail;
        forall authority: string, rest: string ensures tail != authority + ['/'] + rest {
          assert (authority + ['/'] + rest)[|authority|] == '/';
        }
      }
    }
  }

  /** And why it refuses the others, the first reason first. */
  lemma RefusedIff(url: string)
    ensures Check(url) == InvalidUrl <==> forall i | 0 <= i <= |url| :: !("://" <= url[i..])
    ensures Check(url) == TooLong <==> Check(url) != InvalidUrl && |url| > 1500
    ensures Check(url) == NotHttp <==>
              Check(url) != InvalidUrl && |url| <= 1500 && !(|url| >= 7 && HttpInAnyCase(url[..7]))
    ensures Check(url) == NoSlash <==>
              |url| <= 1500 && |url| >= 7 && HttpInAnyCase(url[..7]) && '/' !in url[7..]
  {
    StartsWithHttpIff(url);
    if StartsWithHttp(url) {
      DelimiterOfHttp(url);
    }
    if FindStr(url, "://") == |url| {
      assert url[|url|..] == "";
    }
  }

  lemma SpaceInPathRejects(name: string, path: string, v: string, tail: string)
    requires Spaceless(name) && !Spaceless(path) && NoCrlf(RequestLine(name, path, v))
    ensures !Parse(RequestLine(name, path, v) + CRLF + tail).ok
  {
    var line := RequestLine(name, path, v);
    var s := line + CRLF + tail;
    FindCrlfAfter(line, tail);
    assert s[..|line|] == line;
    var rest := path + [' '] + (HTTP_SLASH + v);
    FindAfter(name, ' ', rest);
    AfterCut(name, ' ', rest);
    var j := Text.Find(path, ' ');
    assert j < |path| by { assert path[..|path|] == path; }
    FindIs(rest, ' ', j) by { assert rest[..j] == path[..j]; }
    var last := rest[j + 1..];
    assert last[|path| - j - 1] == ' ';
  }

  /** A path that brings a protocol of its own. */
  ghost predicate CarriesProtocol(path: string) {
    exists p, v :: Spaceless(p) && Spaceless(v) && path == p + [' '] + (HTTP_SLASH + v)
  }

  /** The bare line of HTTP/0.9 is no request line to this server, unless the path itself makes it one. */
  lemma BareLineIsAcceptedIff(url: string)
    requires |url| >= 7 && LineSafe(url)
    ensures Parse(RequestText(GET, url, 0)).ok <==> CarriesProtocol(Path(url))
  {
    PartsOfUrl(url);
    var line := "GET" + [' '] + Path(url);
    LineSafeHasNoCrlf(line);
    NothingAfter(line + CRLF);
    FindCrlfAfter(line, "");
    AcceptedIff(line + CRLF + "");
    BareLineForm(Path(url));
  }

  lemma BareLineForm(path: string)
    ensures (exists m, p, v :: Spaceless(m) && Spaceless(p) && Spaceless(v)
                               && "GET" + [' '] + path == RequestLine(m, p, v))
       <==> CarriesProtocol(path)
  {
    assert Spaceless("GET");
    forall m, p, v | Spaceless(m) && "GET" + [' '] + path == RequestLine(m, p, v)
      ensures path == p + [' '] + (HTTP_SLASH + v)
    {
      SameCut("GET", path, m, p + [' '] + (HTTP_SLASH + v));
    }
    if CarriesProtocol(path) {
      var p, v :| Spaceless(p) && Spaceless(v) && path == p + [' '] + (HTTP_SLASH + v);
      assert "GET" + [' '] + path == RequestLine("GET", p, v);
    }
  }

  /** The first space splits a line in one way. */
  lemma SameCut(a: string, b: string, c: string, d: string)
    requires Spaceless(a) && Spaceless(c) && a + [' '] + b == c + [' '] + d
    ensures a == c && b == d
  {
    FindAfter(a, ' ', b);
    FindAfter(c, ' ', d);
    AfterCut(a, ' ', b);
    AfterCut(c, ' ', d);
  }
}
