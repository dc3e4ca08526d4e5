/**
 * The web server's request handling before any route runs: the request line
 * is read with sscanf("%s %s %s") and, for POST, the body is what follows the
 * first blank line. This is a small part of HTTP/1.1 message framing
 * (sections 2.1 and 3 of RFC 9112): no header is interpreted and
 * Content-Length is ignored.
 */
module Http {
  import opened Wrappers
  import opened CStrings

  /** Size of the buffer one read() fills (buffer[4096]). */
  const RequestBufferSize: nat := 4096
  /** Sizes of the method[10], path[100] and protocol[20] buffers. */
  const MethodSize: nat := 10
  const PathSize: nat := 100
  const ProtocolSize: nat := 20

  /** The blank line between the header block and the body. */
  const Separator: string := "\r\n\r\n"

  datatype Request = Request(verb: string, path: string, protocol: string, body: Option<string>)

  /** The length of the leading run of non-whitespace characters. */
  function WordSpan(s: string): (r: nat)
    ensures r <= |s|
    ensures forall j :: 0 <= j < r ==> !IsSpace(s[j])
    ensures r < |s| ==> IsSpace(s[r])
  {
    if s != [] && !IsSpace(s[0]) then 1 + WordSpan(s[1..]) else 0
  }

  /** A token `%s` can read: non-empty, no whitespace, no NUL. */
  predicate IsWord(w: string) {
    w != [] && forall j :: 0 <= j < |w| ==> !IsSpace(w[j]) && w[j] != NUL
  }

  /** The whitespace-separated tokens of `s`, in order. */
  function Words(s: string): (ws: seq<string>)
    ensures forall k :: 0 <= k < |ws| ==> ws[k] != [] && forall j :: 0 <= j < |ws[k]| ==> !IsSpace(ws[k][j])
    decreases |s|
  {
    if s == [] then []
    else if IsSpace(s[0]) then Words(s[1..])
    else
      var n := WordSpan(s);
      [s[..n]] + Words(s[n..])
  }

  /** What conversion number k of sscanf("%s %s %s") leaves in its zeroed buffer. */
  function WordAt(ws: seq<string>, k: nat): string {
    if k < |ws| then ws[k] else ""
  }

  /**
   * The request fits the server's buffers: read() saw fewer bytes than the
   * buffer holds (so the buffer stays NUL-terminated) and each of the three
   * tokens fits its buffer with its terminator. The code does not check
   * either; longer input overflows.
   */
  predicate RequestFits(raw: string) {
    var ws := Words(CStr(raw));
    |raw| < RequestBufferSize &&
    |WordAt(ws, 0)| < MethodSize && |WordAt(ws, 1)| < PathSize && |WordAt(ws, 2)| < ProtocolSize
  }

  /**
   * The buffer after read(): method, path and protocol are the first three
   * whitespace tokens of its C string (empty when missing); the body is the
   * text after the first "\r\n\r\n", and only for the method POST.
   */
  function ParseRequest(raw: string): (r: Request)
    requires RequestFits(raw)
    ensures [r.verb, r.path, r.protocol] == (Words(CStr(raw)) + ["", "", ""])[..3]
    ensures r.body.Some? <==> r.verb == "POST" && Contains(CStr(raw), Separator)
    ensures r.body.Some? ==>
      exists k :: 0 <= k <= |CStr(raw)| && MatchAt(CStr(raw), Separator, k) &&
        (forall j :: 0 <= j < k ==> !MatchAt(CStr(raw), Separator, j)) &&
        r.body.value == CStr(raw)[k + |Separator|..]
  {
    var text := CStr(raw);
    var ws := Words(text);
    var verb := WordAt(ws, 0);
    var body :=
      if verb == "POST" then
        match FindSub(text, Separator)
        case Some(k) => Some(text[k + |Separator|..])
        case None => None
      else None;
    Request(verb, WordAt(ws, 1), WordAt(ws, 2), body)
  }

  /** The four branches of the route chain. */
  datatype Route = Home | Setup | UpdateConfig(body: string) | NotFound

  /**
   * The route chain: an exact match on the path; `/setConfig` is taken only
   * by a POST that has a body, any other request to it is not found.
   */
  function RouteOf(req: Request): (r: Route)
    ensures r == Home <==> req.path == "/"
    ensures r == Setup <==> req.path == "/setup"
    ensures r.UpdateConfig? <==> req.path == "/setConfig" && req.verb == "POST" && req.body.Some?
    ensures r.UpdateConfig? ==> req.body == Some(r.body)
  {
    if req.path == "/" then Home
    else if req.path == "/setup" then Setup
    else if req.path == "/setConfig" && req.verb == "POST" && req.body.Some? then UpdateConfig(req.body.value)
    else NotFound
  }

  /** The status line's code each route answers with. */
  function StatusOf(route: Route): (code: nat)
    ensures code == 404 <==> route == NotFound
    ensures code == 200 || code == 404
  {
    if route == NotFound then 404 else 200
  }

  // ---- Requests as a client frames them ----

  /** A header line: non-empty, without CR or NUL. */
  predicate IsHeaderLine(h: string) {
    h != [] && '\r' !in h && NUL !in h
  }

  /** CRLF after the request line, each header line followed by CRLF, a blank line, the body. */
  function HeaderTail(headers: seq<string>, body: string): string {
    if headers == [] then Separator + body
    else "\r\n" + headers[0] + HeaderTail(headers[1..], body)
  }

  /** A request "method path protocol", its header lines and its body. */
  function Frame(verb: string, path: string, protocol: string, headers: seq<string>, body: string): string {
    verb + " " + path + " " + protocol + HeaderTail(headers, body)
  }

  /** Matching at position |x| + j in x + y is matching at j in y. */
  lemma MatchShift(x: string, y: string, pat: string, j: nat)
    ensures MatchAt(x + y, pat, |x| + j) <==> MatchAt(y, pat, j)
  {
    if j + |pat| <= |y| {
      assert (x + y)[|x| + j..|x| + j + |pat|] == y[j..j + |pat|];
    }
  }

  /** The separator cannot start at a character other than CR. */
  lemma NoMatchAtNonCR(s: string, j: nat)
    requires j < |s| && s[j] != '\r'
    ensures !MatchAt(s, Separator, j)
  {
  }

  /** The separator is found first where a prefix without CR ends and the rest's first one starts. */
  lemma PlainPrefix(pre: string, t: string, k: nat)
    requires '\r' !in pre
    requires MatchAt(t, Separator, k) && forall j :: 0 <= j < k ==> !MatchAt(t, Separator, j)
    ensures MatchAt(pre + t, Separator, |pre| + k)
    ensures forall j :: 0 <= j < |pre| + k ==> !MatchAt(pre + t, Separator, j)
  {
    MatchShift(pre, t, Separator, k);
    forall j | 0 <= j < |pre| + k ensures !MatchAt(pre + t, Separator, j) {
      if j < |pre| {
        assert (pre + t)[j] == pre[j];
        NoMatchAtNonCR(pre + t, j);
      } else {
        MatchShift(pre, t, Separator, j - |pre|);
      }
    }
  }

  /** In a framed header block the first blank line is the one before the body. */
  lemma {:induction false} TailSeparator(headers: seq<string>, body: string)
    requires forall i :: 0 <= i < |headers| ==> IsHeaderLine(headers[i])
    ensures |HeaderTail(headers, body)| >= |body| + 4
    ensures MatchAt(HeaderTail(headers, body), Separator, |HeaderTail(headers, body)| - |body| - 4)
    ensures forall j :: 0 <= j < |HeaderTail(headers, body)| - |body| - 4 ==>
      !MatchAt(HeaderTail(headers, body), Separator, j)
  {
    var t := HeaderTail(headers, body);
    if headers == [] {
      assert t[..4] == Separator;
    } else {
      var h := headers[0];
      var t' := HeaderTail(headers[1..], body);
      TailSeparator(headers[1..], body);
      var k' := |t'| - |body| - 4;
      PlainPrefix(h, t', k');
      var ht := h + t';
      assert t == "\r\n" + ht;
      MatchShift("\r\n", ht, Separator, |h| + k');
      forall j | 0 <= j < |t| - |body| - 4 ensures !MatchAt(t, Separator, j) {
        if j == 0 {
          assert t[2] == h[0];
        } else if j == 1 {
          NoMatchAtNonCR(t, 1);
        } else {
          MatchShift("\r\n", ht, Separator, j - 2);
        }
      }
    }
  }

  lemma {:induction false} TailNoNul(headers: seq<string>, body: string)
    requires forall i :: 0 <= i < |headers| ==> IsHeaderLine(headers[i])
    requires NUL !in body
    ensures NUL !in HeaderTail(headers, body)
    ensures |HeaderTail(headers, body)| > 0 && HeaderTail(headers, body)[0] == '\r'
    ensures |HeaderTail(headers, body)| >= |body|
    ensures HeaderTail(headers, body)[|HeaderTail(headers, body)| - |body|..] == body
  {
    var t := HeaderTail(headers, body);
    if headers == [] {
      assert t == Separator + body;
    } else {
      var t' := HeaderTail(headers[1..], body);
      TailNoNul(headers[1..], body);
      assert t == ("\r\n" + headers[0]) + t';
      assert t[|t| - |body|..] == t'[|t'| - |body|..];
    }
  }

  lemma WordSpanUnique(s: string, k: nat)
    requires k <= |s|
    requires forall j :: 0 <= j < k ==> !IsSpace(s[j])
    requires k < |s| ==> IsSpace(s[k])
    ensures WordSpan(s) == k
  {
  }

  /** sscanf's `%s` reads exactly a word that is followed by whitespace or the end. */
  lemma WordsCons(w: string, s: string)
    requires IsWord(w)
    requires s == [] || IsSpace(s[0])
    ensures Words(w + s) == [w] + Words(s)
  {
    var x := w + s;
    assert x[0] == w[0];
    forall j | 0 <= j < |w| ensures !IsSpace(x[j]) {
      assert x[j] == w[j];
    }
    if |w| < |x| {
      assert x[|w|] == s[0];
    }
    WordSpanUnique(x, |w|);
    assert x[..|w|] == w && x[|w|..] == s;
  }

  lemma WordsSpace(s: string)
    ensures Words(" " + s) == Words(s)
  {
    assert (" " + s)[1..] == s;
  }

  /** The request line of a framed request holds neither NUL nor CR, and the whole request no NUL. */
  lemma FrameChars(verb: string, path: string, protocol: string, headers: seq<string>, body: string)
    requires IsWord(verb) && IsWord(path) && IsWord(protocol)
    requires forall i :: 0 <= i < |headers| ==> IsHeaderLine(headers[i])
    requires NUL !in body
    ensures '\r' !in verb + " " + path + " " + protocol
    ensures NUL !in Frame(verb, path, protocol, headers, body)
  {
    TailNoNul(headers, body);
    var line := verb + " " + path + " " + protocol;
    forall j | 0 <= j < |line| ensures line[j] != NUL && line[j] != '\r' {
      if j < |verb| {
        assert line[j] == verb[j];
      } else if j == |verb| || j == |verb| + 1 + |path| {
      } else if j < |verb| + 1 + |path| {
        assert line[j] == path[j - |verb| - 1];
      } else {
        assert line[j] == protocol[j - |verb| - |path| - 2];
      }
    }
  }

  /** A request line followed by whitespace: its first three words are method, path and protocol. */
  /** A space, then a word, then a space or the end. */
  lemma SpacedWord(w: string, s: string)
    requires IsWord(w)
    requires s == [] || IsSpace(s[0])
    ensures Words(" " + (w + s)) == [w] + Words(s)
  {
    WordsSpace(w + s);
    WordsCons(w, s);
  }

  lemma RequestLineWords(verb: string, path: string, protocol: string, t: string)
    requires IsWord(verb) && IsWord(path) && IsWord(protocol)
    requires t != [] && IsSpace(t[0])
    ensures Words(verb + (" " + (path + (" " + (protocol + t))))) == [verb, path, protocol] + Words(t)
  {
    var s3 := " " + (protocol + t);
    var s2 := " " + (path + s3);
    SpacedWord(protocol, t);
    assert s3[0] == ' ';
    SpacedWord(path, s3);
    assert s2[0] == ' ';
    WordsCons(verb, s2);
    ConsThree(verb, path, protocol, Words(t));
  }

  lemma ConsThree<T>(a: T, b: T, c: T, xs: seq<T>)
    ensures [a] + ([b] + ([c] + xs)) == [a, b, c] + xs
  {
  }

  lemma RequestLineAssoc(verb: string, path: string, protocol: string, t: string)
    ensures verb + " " + path + " " + protocol + t == verb + (" " + (path + (" " + (protocol + t))))
  {
    var u := protocol + t;
    assert verb + " " + path + " " + protocol + t == (verb + " " + path + " ") + u;
    var w := path + (" " + u);
    assert (verb + " " + path + " ") + u == (verb + " ") + w;
  }

  /** The request line of a framed request is its first three words. */
  lemma FrameWords(verb: string, path: string, protocol: string, headers: seq<string>, body: string)
    requires IsWord(verb) && IsWord(path) && IsWord(protocol)
    requires forall i :: 0 <= i < |headers| ==> IsHeaderLine(headers[i])
    requires NUL !in body
    ensures Words(Frame(verb, path, protocol, headers, body)) == [verb, path, protocol] + Words(HeaderTail(headers, body))
  {
    var t := HeaderTail(headers, body);
    TailNoNul(headers, body);
    RequestLineWords(verb, path, protocol, t);
    RequestLineAssoc(verb, path, protocol, t);
  }

  /** The first blank line of a framed request is the one just before its body. */
  lemma FrameSeparator(verb: string, path: string, protocol: string, headers: seq<string>, body: string)
    requires IsWord(verb) && IsWord(path) && IsWord(protocol)
    requires forall i :: 0 <= i < |headers| ==> IsHeaderLine(headers[i])
    requires NUL !in body
    ensures |Frame(verb, path, protocol, headers, body)| >= |body| + 4
    ensures FindSub(Frame(verb, path, protocol, headers, body), Separator) ==
      Some(|Frame(verb, path, protocol, headers, body)| - |body| - 4)
  {
    var t := HeaderTail(headers, body);
    var line := verb + " " + path + " " + protocol;
    var raw := Frame(verb, path, protocol, headers, body);
    assert raw == line + t;
    FrameChars(verb, path, protocol, headers, body);
    TailSeparator(headers, body);
    PlainPrefix(line, t, |t| - |body| - 4);
    var k := |line| + |t| - |body| - 4;
  }

  /**
   * A framed request parses back: its three request-line tokens, and its body
   * exactly when the method is POST.
   */
  lemma ParseFrame(verb: string, path: string, protocol: string, headers: seq<string>, body: string)
    requires IsWord(verb) && IsWord(path) && IsWord(protocol)
    requires |verb| < MethodSize && |path| < PathSize && |protocol| < ProtocolSize
    requires forall i :: 0 <= i < |headers| ==> IsHeaderLine(headers[i])
    requires NUL !in body
    requires |Frame(verb, path, protocol, headers, body)| < RequestBufferSize
    ensures RequestFits(Frame(verb, path, protocol, headers, body))
    ensures ParseRequest(Frame(verb, path, protocol, headers, body)) ==
      Request(verb, path, protocol, if verb == "POST" then Some(body) else None)
  {
    var raw := Frame(verb, path, protocol, headers, body);
    FrameChars(verb, path, protocol, headers, body);
    assert CStr(raw) == raw;
    FrameWords(verb, path, protocol, headers, body);
    FrameSeparator(verb, path, protocol, headers, body);
    var t := HeaderTail(headers, body);
    TailNoNul(headers, body);
    assert raw == (verb + " " + path + " " + protocol) + t;
    assert raw[|raw| - |body|..] == t[|t| - |body|..];
    var ws := Words(raw);
    assert WordAt(ws, 0) == verb && WordAt(ws, 1) == path && WordAt(ws, 2) == protocol;
    assert |Separator| == 4;
    var text := CStr(raw);
    assert FindSub(text, Separator) == Some(|raw| - |body| - 4);
    assert text[|raw| - |body| - 4 + |Separator|..] == body;
    var r := ParseRequest(raw);
    assert r.verb == verb && r.path == path && r.protocol == protocol;
    assert r.body == if verb == "POST" then Some(body) else None;
  }

  /** End to end: where a framed request is routed. */
  lemma RouteFrame(verb: string, path: string, protocol: string, headers: seq<string>, body: string)
    requires IsWord(verb) && IsWord(path) && IsWord(protocol)
    requires |verb| < MethodSize && |path| < PathSize && |protocol| < ProtocolSize
    requires forall i :: 0 <= i < |headers| ==> IsHeaderLine(headers[i])
    requires NUL !in body
    requires |Frame(verb, path, protocol, headers, body)| < RequestBufferSize
    ensures RequestFits(Frame(verb, path, protocol, headers, body))
    ensures RouteOf(ParseRequest(Frame(verb, path, protocol, headers, body))) ==
      if path == "/" then Home
      else if path == "/setup" then Setup
      else if path == "/setConfig" && verb == "POST" then UpdateConfig(body)
      else NotFound
  {
    ParseFrame(verb, path, protocol, headers, body);
  }

  lemma SampleHeaderTail()
    ensures HeaderTail(["Host: x"], "color=Red") == "\r\nHost: x\r\n\r\ncolor=Red"
  {
    assert HeaderTail([], "color=Red") == "\r\n\r\ncolor=Red";
    assert "\r\n" + "Host: x" + "\r\n\r\ncolor=Red" == "\r\nHost: x\r\n\r\ncolor=Red";
  }

  /** The sample update request, as a client frames it. */
  lemma SampleUpdateFrame()
    ensures Frame("POST", "/setConfig", "HTTP/1.1", ["Host: x"], "color=Red") ==
      "POST /setConfig HTTP/1.1\r\nHost: x\r\n\r\ncolor=Red"
  {
    SampleHeaderTail();
    assert "POST" + " " + "/setConfig" + " " + "HTTP/1.1" == "POST /setConfig HTTP/1.1";
    assert "POST /setConfig HTTP/1.1" + "\r\nHost: x\r\n\r\ncolor=Red" ==
      "POST /setConfig HTTP/1.1\r\nHost: x\r\n\r\ncolor=Red";
  }

  /** Parsing the sample update request yields its method, path and form body. */
  lemma ParseSampleUpdate()
    ensures RequestFits("POST /setConfig HTTP/1.1\r\nHost: x\r\n\r\ncolor=Red")
    ensures ParseRequest("POST /setConfig HTTP/1.1\r\nHost: x\r\n\r\ncolor=Red") ==
      Request("POST", "/setConfig", "HTTP/1.1", Some("color=Red"))
    ensures RouteOf(ParseRequest("POST /setConfig HTTP/1.1\r\nHost: x\r\n\r\ncolor=Red")) ==
      UpdateConfig("color=Red")
  {
    SampleUpdateFrame();
    assert IsHeaderLine(["Host: x"][0]);
    ParseFrame("POST", "/setConfig", "HTTP/1.1", ["Host: x"], "color=Red");
  }
}
