/** The request and response parsers and printers. */
module HttpMessages {
  import opened Options
  import opened CStrings
  import opened HttpMethods
  import opened HttpHeaders

  const VERSION := "HTTP/1.1"
  const CONTENT_LENGTH := "Content-Length"
  const CONTENT_TYPE := "Content-Type"
  const CRLF := "\r\n"
  const BLANK := "\r\n\r\n"

  /** A body of length zero stands for the null body. */
  datatype Request = Request(verb: Method, path: string, headers: seq<Header>, body: string)

  datatype Response = Response(code: int, reason: string, headers: seq<Header>, body: string)

  datatype Parsed<T> = Refused(code: nat) | Accepted(message: T)

  // ---------- parsing ----------

  /** The first line without its line end, and where that line end is. */
  datatype Line = NoLine | Line(text: string, end: nat)

  function FirstLine(buf: string): (l: Line)
    ensures l.Line? ==> l.end < |buf| && l.text <= buf
  {
    var end := Find(buf, '\n');
    if end == |buf| then NoLine else Line(Chomp(buf[..end]), end)
  }

  /** The header block of what follows the first line, and where the body starts. */
  function BlockEnd(rest: string): (r: (nat, Option<nat>))
    ensures r.0 <= |rest| && (r.1.Some? ==> r.0 < r.1.value <= |rest|)
  {
    match (FindSub(rest, BLANK), FindSub(rest, "\n\n"))
    case (Some(i), None) => (i, Some(i + 4))
    case (Some(i), Some(j)) => if i <= j then (i, Some(i + 4)) else (j, Some(j + 2))
    case (None, Some(j)) => (j, Some(j + 2))
    case (None, None) => (|rest|, None)
  }

  function DeclaredLength(headers: seq<Header>): nat {
    match Get(headers, CONTENT_LENGTH)
    case Some(v) => StrToUL(v)
    case None => 0
  }

  function HeadersOf(rest: string): seq<Header> {
    Table(Tokens(CStr(rest[..BlockEnd(rest).0]), NEWLINE))
  }

  /** No more of the body than was declared, and no more than there is. */
  function BodyOf(rest: string): string {
    var start, n := BlockEnd(rest).1, DeclaredLength(HeadersOf(rest));
    if start.None? then ""
    else if n < |rest| - start.value then rest[start.value..start.value + n]
    else rest[start.value..]
  }

  /** Method and target of a request line. */
  function ReadRequestLine(text: string): Parsed<(Method, string)> {
    var sp := Find(text, ' ');
    if sp == |text| then Refused(400) else
    var m := FromName(text[..sp]);
    if m.None? then Refused(501) else
    var target := text[sp + 1..];
    var sp2 := Find(target, ' ');
    if sp2 == |target| then Refused(400) else
    if target[sp2 + 1..] != VERSION then Refused(505) else
    Accepted((m.value, target[..sp2]))
  }

  function ParseRequest(buf: string): Parsed<Request> {
    var l := FirstLine(buf);
    if l.NoLine? then Refused(408) else
    var rest := buf[l.end + 1..];
    match ReadRequestLine(l.text)
    case Refused(code) => Refused(code)
    case Accepted(start) => Accepted(Request(start.0, CStr(start.1), HeadersOf(rest), BodyOf(rest)))
  }

  /** Code and reason of a status line. */
  function ReadStatusLine(text: string): Parsed<(int, string)> {
    var sp := Find(text, ' ');
    if sp == |text| then Refused(502) else
    if text[..sp] != VERSION then Refused(505) else
    var status := text[sp + 1..];
    var sp2 := Find(status, ' ');
    if sp2 == |status| then Refused(502) else
    var code := if sp2 >= 16 then status[..15] else status[..sp2];
    Accepted((Atoi(CStr(code)), CStr(status[sp2 + 1..])))
  }

  function ParseResponse(buf: string): Parsed<Response> {
    var l := FirstLine(buf);
    if l.NoLine? then Refused(502) else
    var rest := buf[l.end + 1..];
    match ReadStatusLine(l.text)
    case Refused(code) => Refused(code)
    case Accepted(start) => Accepted(Response(start.0, start.1, HeadersOf(rest), BodyOf(rest)))
  }

  // ---------- printing ----------

  function HeaderLine(h: Header): string {
    h.name + ": " + h.value
  }

  function HeaderLines(hs: seq<Header>): (ls: seq<string>)
    ensures |ls| == |hs| && forall i | 0 <= i < |hs| :: ls[i] == HeaderLine(hs[i])
  {
    if hs == [] then [] else HeaderLines(hs[..|hs| - 1]) + [HeaderLine(hs[|hs| - 1])]
  }

  /** Lines with their line ends. */
  function Lines(ls: seq<string>): string {
    if ls == [] then "" else Lines(ls[..|ls| - 1]) + ls[|ls| - 1] + CRLF
  }

  /** The headers a request passes on: all but its own Content-Length. */
  function Others(hs: seq<Header>): seq<Header> {
    if hs == [] then []
    else
      var h := hs[|hs| - 1];
      Others(hs[..|hs| - 1]) + if SameName(h.name, CONTENT_LENGTH) then [] else [h]
  }

  function RequestLine(r: Request): string {
    Name(r.verb) + " " + r.path + " " + VERSION
  }

  function SentHeaders(r: Request): seq<Header> {
    [Header(CONTENT_LENGTH, Dec(|r.body|))] + Others(r.headers)
  }

  function RequestHead(r: Request): string {
    Lines([RequestLine(r)] + HeaderLines(SentHeaders(r))) + CRLF
  }

  /** The bytes of a request. */
  function PrintRequest(r: Request): string {
    RequestHead(r) + r.body
  }

  /** What "%i" prints. */
  function Itoa(n: int): string {
    if n < 0 then "-" + Dec(0 - n) else Dec(n)
  }

  function StatusLine(r: Response): string {
    VERSION + " " + Itoa(r.code) + " " + r.reason
  }

  /** The response's own headers, with a content type if it has none. */
  function Typed(hs: seq<Header>): seq<Header> {
    if Get(hs, CONTENT_TYPE).Some? then hs else Set(hs, Header(CONTENT_TYPE, "text/plain"))
  }

  function StampedHeaders(r: Response, date: string, length: nat): seq<Header> {
    [Header("Date", date), Header("Server", "Foxtails"), Header(CONTENT_LENGTH, Dec(length))] + Typed(r.headers)
  }

  /** The bytes of a response. A response to HEAD announces a length but has no body. */
  function PrintResponse(r: Response, date: string, length: nat): string {
    ResponseHead(r, date, length) + r.body
  }

  function ResponseHead(r: Response, date: string, length: nat): string {
    Lines([StatusLine(r)] + HeaderLines(StampedHeaders(r, date, length))) + CRLF
  }

  /** The head as far as the first i headers. */
  function HeadSoFar(r: Request, i: nat): string
    requires i <= |r.headers|
  {
    Lines([RequestLine(r)] + HeaderLines(SentHeaders(r.(headers := r.headers[..i]))))
  }

  // ---------- the fixed buffer ----------

  const HEAD_SIZE: nat := 4096

  /** What the buffer holds of a head printed into it: all of it if it fits with a NUL behind
      it, otherwise its front and a NUL. */
  ghost predicate Shows(buf: seq<char>, head: string) {
    && |buf| == HEAD_SIZE
    && if |head| < HEAD_SIZE then head <= buf
       else head[..HEAD_SIZE - 1] == buf[..HEAD_SIZE - 1] && buf[HEAD_SIZE - 1] == '\0'
  }

  /** snprintf at len of what is left of the buffer, which returns the length it would have
      liked to print. With len beyond the buffer, what is left would wrap. */
  method Snprintf(buf: array<char>, len: nat, text: string, ghost head: string) returns (n: nat)
    requires len == |head| <= HEAD_SIZE && Shows(buf[..], head)
    modifies buf
    ensures n == |text| && Shows(buf[..], head + text)
  {
    var left := HEAD_SIZE - len;
    n := |text|;
    if left > 0 {
      var k := if n < left then n else left - 1;
      forall i | 0 <= i < k { buf[len + i] := text[i]; }
      buf[len + k] := '\0';
      assert buf[..len] == head[..len];
      assert buf[len..len + k] == text[..k];
    }
  }

  /** The bytes behind a head of len bytes, read from the buffer; None stands for a head that
      does not fit it, whose bytes are written or read out of bounds. */
  function Taken(buf: seq<char>, len: nat, body: string): Option<string>
    requires |buf| == HEAD_SIZE
  {
    if len > HEAD_SIZE then None else Some(buf[..len] + body)
  }

  /** What is sent of a message: exactly the message, if its head is shorter than the buffer;
      a head as long as the buffer loses its last byte; a longer one does not fit. */
  function Sent(head: string, body: string): (r: Option<string>)
    ensures r == Some(head + body) <==> |head| < HEAD_SIZE || (|head| == HEAD_SIZE && head[HEAD_SIZE - 1] == '\0')
  {
    if |head| < HEAD_SIZE then Some(head + body)
    else if |head| == HEAD_SIZE then
      var cut := head[..HEAD_SIZE - 1] + "\0";
      assert (cut + body)[HEAD_SIZE - 1] == '\0' && (head + body)[HEAD_SIZE - 1] == head[HEAD_SIZE - 1];
      assert head[HEAD_SIZE - 1] == '\0' ==> cut == head;
      Some(cut + body)
    else None
  }

  lemma TakenIsSent(buf: seq<char>, head: string, body: string)
    requires |head| <= HEAD_SIZE ==> Shows(buf, head)
    requires |buf| == HEAD_SIZE
    ensures Taken(buf, |head|, body) == Sent(head, body)
  {
    if |head| < HEAD_SIZE {
      assert buf[..|head|] == head;
    } else if |head| == HEAD_SIZE {
      assert buf[..HEAD_SIZE] == head[..HEAD_SIZE - 1] + "\0";
    }
  }

  /** A message is sent as printed exactly if its head is shorter than the buffer. */
  lemma SentIffFits(ls: seq<string>, body: string)
    ensures Sent(Lines(ls) + CRLF, body) == Some(Lines(ls) + CRLF + body) <==> |Lines(ls) + CRLF| < 4096
  {
    var head := Lines(ls) + CRLF;
    assert head[|head| - 1] == '\n';
  }

  /** Prints the blank line behind the headers and sends head and body. */
  method Finish(buf: array<char>, len: nat, body: string, ghost head: string) returns (sent: Option<string>)
    requires buf.Length == HEAD_SIZE && len == |head| && (len <= HEAD_SIZE ==> Shows(buf[..], head))
    modifies buf
    ensures sent == Sent(head + CRLF, body)
  {
    if len > HEAD_SIZE { return None; }
    var n := Snprintf(buf, len, CRLF, head);
    TakenIsSent(buf[..], head + CRLF, body);
    sent := Taken(buf[..], len + n, body);
  }

  // ---------- the printers ----------

  /** Builds the head in the buffer, header by header. The length left for a header wraps, and
      the header is written out of bounds, once the ones before exceed the buffer. */
  method SendRequest(r: Request) returns (sent: Option<string>)
    ensures sent == Sent(RequestHead(r), r.body)
  {
    var buf := new char[HEAD_SIZE];
    var first := RequestLine(r) + CRLF + HeaderLine(Header(CONTENT_LENGTH, Dec(|r.body|))) + CRLF;
    var len := Snprintf(buf, 0, first, "");
    HeadStarts(r);
    assert "" + first == first;
    for i := 0 to |r.headers|
      invariant fresh(buf) && buf.Length == HEAD_SIZE && len == |HeadSoFar(r, i)|
      invariant len <= HEAD_SIZE ==> Shows(buf[..], HeadSoFar(r, i))
    {
      var h := r.headers[i];
      HeadGrows(r, i);
      if !SameName(h.name, CONTENT_LENGTH) {
        if len > HEAD_SIZE {
          HeadLonger(r, i);
          return None;
        }
        var n := Snprintf(buf, len, HeaderLine(h) + CRLF, HeadSoFar(r, i));
        len := len + n;
      }
    }
    HeadEnds(r);
    sent := Finish(buf, len, r.body, HeadSoFar(r, |r.headers|));
  }

  /** The head only grows. */
  lemma {:induction false} HeadLonger(r: Request, i: nat)
    requires i <= |r.headers|
    ensures |HeadSoFar(r, i)| < |RequestHead(r)|
    decreases |r.headers| - i
  {
    if i < |r.headers| {
      HeadGrows(r, i);
      HeadLonger(r, i + 1);
    } else {
      HeadEnds(r);
    }
  }

  lemma HeadEnds(r: Request)
    ensures HeadSoFar(r, |r.headers|) + CRLF == RequestHead(r)
  {
    assert r.(headers := r.headers[..|r.headers|]) == r;
  }

  lemma HeadStarts(r: Request)
    ensures HeadSoFar(r, 0) == RequestLine(r) + CRLF + HeaderLine(Header(CONTENT_LENGTH, Dec(|r.body|))) + CRLF
  {
    var l, h := RequestLine(r), Header(CONTENT_LENGTH, Dec(|r.body|));
    assert r.headers[..0] == [];
    assert SentHeaders(r.(headers := [])) == [h];
    assert [h][..0] == [];
    assert HeaderLines([h]) == [HeaderLine(h)];
    LinesSnoc([], l);
    LinesSnoc([l], HeaderLine(h));
    assert [] + [l] == [l];
  }

  lemma HeadGrows(r: Request, i: nat)
    requires i < |r.headers|
    ensures HeadSoFar(r, i + 1)
         == HeadSoFar(r, i)
          + if SameName(r.headers[i].name, CONTENT_LENGTH) then "" else (HeaderLine(r.headers[i]) + CRLF)
  {
    var h, a := r.headers[i], SentHeaders(r.(headers := r.headers[..i]));
    OthersSnoc(r, i);
    if !SameName(h.name, CONTENT_LENGTH) {
      LinesGrow(RequestLine(r), HeaderLines(a), HeaderLine(h));
    }
  }

  /** The head of a response as far as the first i of its typed headers. */
  function ReplySoFar(r: Response, date: string, length: nat, i: nat): string
    requires i <= |Typed(r.headers)|
  {
    Lines([StatusLine(r)] + HeaderLines(StampedHeaders(r, date, length)[..3 + i]))
  }

  /** Adds a default content type and prints the head in the buffer, header by header. */
  method SendResponse(r: Response, date: string, length: nat) returns (sent: Option<string>)
    ensures sent == Sent(ResponseHead(r, date, length), r.body)
  {
    var own := r.headers;
    if Get(own, CONTENT_TYPE).None? {
      own := Set(own, Header(CONTENT_TYPE, "text/plain"));
    }
    var buf := new char[HEAD_SIZE];
    var first := StatusLine(r) + CRLF + HeaderLine(Header("Date", date)) + CRLF
               + HeaderLine(Header("Server", "Foxtails")) + CRLF
               + HeaderLine(Header(CONTENT_LENGTH, Dec(length))) + CRLF;
    var len := Snprintf(buf, 0, first, "");
    ReplyStarts(r, date, length);
    assert "" + first == first;
    for i := 0 to |own|
      invariant fresh(buf) && buf.Length == HEAD_SIZE && len == |ReplySoFar(r, date, length, i)|
      invariant len <= HEAD_SIZE ==> Shows(buf[..], ReplySoFar(r, date, length, i))
    {
      if len > HEAD_SIZE {
        ReplyLonger(r, date, length, i);
        return None;
      }
      ReplyGrows(r, date, length, i);
      var n := Snprintf(buf, len, HeaderLine(own[i]) + CRLF, ReplySoFar(r, date, length, i));
      len := len + n;
    }
    ReplyEnds(r, date, length);
    sent := Finish(buf, len, r.body, ReplySoFar(r, date, length, |own|));
  }

  lemma {:induction false} ReplyLonger(r: Response, date: string, length: nat, i: nat)
    requires i <= |Typed(r.headers)|
    ensures |ReplySoFar(r, date, length, i)| < |ResponseHead(r, date, length)|
    decreases |Typed(r.headers)| - i
  {
    if i < |Typed(r.headers)| {
      ReplyGrows(r, date, length, i);
      ReplyLonger(r, date, length, i + 1);
    } else {
      ReplyEnds(r, date, length);
    }
  }

  lemma ReplyEnds(r: Response, date: string, length: nat)
    ensures ReplySoFar(r, date, length, |Typed(r.headers)|) + CRLF == ResponseHead(r, date, length)
  {
    var hs := StampedHeaders(r, date, length);
    assert hs[..3 + |Typed(r.headers)|] == hs;
  }

  lemma ReplyStarts(r: Response, date: string, length: nat)
    ensures ReplySoFar(r, date, length, 0)
         == StatusLine(r) + CRLF + HeaderLine(Header("Date", date)) + CRLF
          + HeaderLine(Header("Server", "Foxtails")) + CRLF
          + HeaderLine(Header(CONTENT_LENGTH, Dec(length))) + CRLF
  {
    var hs := StampedHeaders(r, date, length)[..3];
    FourLines(StatusLine(r), HeaderLine(hs[0]), HeaderLine(hs[1]), HeaderLine(hs[2]));
    assert [StatusLine(r)] + HeaderLines(hs)
        == [StatusLine(r), HeaderLine(hs[0]), HeaderLine(hs[1]), HeaderLine(hs[2])];
  }

  lemma FourLines(l: string, a: string, b: string, c: string)
    ensures Lines([l, a, b, c]) == l + CRLF + a + CRLF + b + CRLF + c + CRLF
  {
    calc {
      Lines([l, a, b, c]);
      { assert [l, a, b, c] == [l, a, b] + [c]; LinesSnoc([l, a, b], c); }
      Lines([l, a, b]) + c + CRLF;
      { assert [l, a, b] == [l, a] + [b]; LinesSnoc([l, a], b); }
      Lines([l, a]) + b + CRLF + c + CRLF;
      { assert [l, a] == [l] + [a]; LinesSnoc([l], a); }
      Lines([l]) + a + CRLF + b + CRLF + c + CRLF;
      { assert [l] == [] + [l]; LinesSnoc([], l); }
      Lines([]) + l + CRLF + a + CRLF + b + CRLF + c + CRLF;
      { assert Lines([]) + l == l; }
      l + CRLF + a + CRLF + b + CRLF + c + CRLF;
    }
  }

  lemma ReplyGrows(r: Response, date: string, length: nat, i: nat)
    requires i < |Typed(r.headers)|
    ensures ReplySoFar(r, date, length, i + 1)
         == ReplySoFar(r, date, length, i) + (HeaderLine(Typed(r.headers)[i]) + CRLF)
  {
    var hs := StampedHeaders(r, date, length);
    var h := Typed(r.headers)[i];
    assert hs[3 + i] == h;
    assert hs[..3 + (i + 1)][..3 + i] == hs[..3 + i];
    assert HeaderLines(hs[..3 + (i + 1)]) == HeaderLines(hs[..3 + i]) + [HeaderLine(h)];
    LinesGrow(StatusLine(r), HeaderLines(hs[..3 + i]), HeaderLine(h));
  }

  lemma LinesSnoc(ls: seq<string>, l: string)
    ensures Lines(ls + [l]) == Lines(ls) + l + CRLF
  {
    assert (ls + [l])[..|ls|] == ls;
  }

  lemma LinesGrow(first: string, ls: seq<string>, l: string)
    ensures Lines([first] + (ls + [l])) == Lines([first] + ls) + l + CRLF
  {
    assert [first] + (ls + [l]) == ([first] + ls) + [l];
    LinesSnoc([first] + ls, l);
  }

  lemma OthersSnoc(r: Request, i: nat)
    requires i < |r.headers|
    ensures var a, b := SentHeaders(r.(headers := r.headers[..i])), SentHeaders(r.(headers := r.headers[..i + 1]));
            if SameName(r.headers[i].name, CONTENT_LENGTH) then b == a
            else b == a + [r.headers[i]] && HeaderLines(b) == HeaderLines(a) + [HeaderLine(r.headers[i])]
  {
    assert r.headers[..i + 1][..i] == r.headers[..i];
    var a := SentHeaders(r.(headers := r.headers[..i]));
    assert (a + [r.headers[i]])[..|a|] == a;
  }
}
