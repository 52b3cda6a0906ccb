/** The benchmark against the server: what the builder wrote is what the parser reads from its buffer. */
module Benchmark {
  import opened Text
  import opened Buffers
  import opened Requests
  import opened Webbench

  /**
   Builds a request, receives it into a buffer and parses it. An accepted URL in HTTP/1.0 or 1.1 is
   understood as it was meant exactly when its path has no space, and then uses up the buffer; in
   HTTP/0.9 it is refused unless its path carries a protocol.
   */
  method Exchange(b: Builder, url: string, m: Method, buff: Buffer, request: HttpRequest)
    returns (built: Result, ok: bool)
    requires b.Valid() && buff.Valid() && buff.Contents() == "" && request.View() == FRESH
    requires '\0' !in url
    requires Check(url) == Built ==> |Host(url)| < MAXHOSTNAMELEN
    modifies b, b.request, b.host, buff, request
    ensures built == Check(url) && buff.Valid()
    ensures built == Built && LineSafe(url) && b.http10 > 0 ==>
      && (ok <==> Spaceless(Path(url)))
      && (ok ==> request.View() == Understood(url, m, b.http10) && buff.Contents() == "" && !request.IsKeepAlive())
    ensures built == Built && LineSafe(url) && b.http10 == 0 ==> (ok <==> CarriesProtocol(Path(url)))
  {
    ok := false;
    built := b.BuildRequest(url, m);
    if built != Built {
      return;
    }
    CheckedIsLong(url);
    ok := Receive(CStr(b.request[..]), buff, request);
    if !LineSafe(url) {
    } else if b.http10 > 0 {
      BenchmarkIsReadBackIff(url, m, b.http10);
    } else {
      BareLineIsAcceptedIff(url);
    }
  }

  method Receive(text: string, buff: Buffer, request: HttpRequest) returns (ok: bool)
    requires buff.Valid() && buff.Contents() == "" && request.View() == FRESH
    modifies buff, request
    ensures buff.Valid()
    ensures Outcome(ok, request.View(), buff.Contents()) == Parse(text)
  {
    buff.Append(text);
    assert buff.Contents() == text;
    ok := request.ParseRequest(buff);
  }

  lemma CheckedIsLong(url: string)
    requires Check(url) == Built
    ensures |url| >= 7
  {
  }
}
