/** From the bytes a printer writes to the message a parser reads, through the receive loop
    and whatever way the bytes arrive. */
module HttpEndToEnd {
  import opened Options
  import opened CStrings
  import opened HttpMethods
  import opened HttpHeaders
  import opened HttpMessages
  import opened HttpRoundTrip
  import opened HttpReceive
  import opened HttpDangling

  // ---------- text without the length field ----------

  predicate FieldFree(s: string) {
    FindSub(s, LENGTH_FIELD).None?
  }

  predicate Separator(c: char) {
    c in {' ', '\r', '\n'}
  }

  /** A separator cannot lie inside the field name. */
  lemma SeparatorBlocks(s: string, j: nat, k: nat)
    requires j <= k < j + 15 && k < |s| && Separator(s[k])
    ensures !HasAt(s, j, LENGTH_FIELD)
  {
    CharAt(s, j, LENGTH_FIELD, k - j);
    assert LENGTH_FIELD[k - j] !in {' ', '\r', '\n'};
  }

  lemma ShortIsFree(s: string)
    requires |s| < 15
    ensures FieldFree(s)
  {
  }

  /** The field does not start in a part without it, whatever follows the next separator. */
  lemma FreeFront(a: string, c: char, rest: string, j: nat)
    requires FieldFree(a) && Separator(c) && j <= |a|
    ensures !HasAt(a + [c] + rest, j, LENGTH_FIELD)
  {
    var s := a + [c] + rest;
    if |a| < j + 15 {
      SeparatorBlocks(s, j, |a|);
    } else {
      assert !HasAt(a, j, LENGTH_FIELD);
      assert s[j..j + 15] == a[j..j + 15];
    }
  }

  lemma FreeJoin(a: string, c: char, b: string)
    requires FieldFree(a) && Separator(c) && FieldFree(b)
    ensures FieldFree(a + [c] + b)
  {
    var s := a + [c] + b;
    forall j | 0 <= j <= |s|
      ensures !HasAt(s, j, LENGTH_FIELD)
    {
      if j <= |a| {
        FreeFront(a, c, b, j);
      } else {
        HasAtShift(a + [c], b, j, LENGTH_FIELD);
      }
    }
  }

  lemma FreeLine(a: string, b: string)
    requires FieldFree(a) && FieldFree(b)
    ensures FieldFree(a + CRLF + b)
  {
    ShortIsFree("");
    FreeJoin(a, '\r', "");
    FreeJoin(a + ['\r'] + "", '\n', b);
    assert a + CRLF + b == a + ['\r'] + "" + ['\n'] + b;
  }

  /** The number behind the first field, if nothing before it spells the field. */
  lemma AnnouncedLength(n: nat, before: string, after: string)
    requires n <= ULONG_MAX && after != "" && !IsDigit(after[0]) && FieldFree(before)
    ensures Announced(before + CRLF + (LENGTH_FIELD + (" " + Dec(n) + after))) == n
  {
    var rest := LENGTH_FIELD + (" " + Dec(n) + after);
    ShortIsFree("");
    FreeJoin(before, '\r', "");
    var front := before + ['\r'] + "";
    assert before + CRLF + rest == front + ['\n'] + rest;
    assert front + ['\n'] == before + CRLF;
    forall j | 0 <= j < |before + CRLF|
      ensures !HasAt(before + CRLF + rest, j, LENGTH_FIELD)
    {
      FreeFront(front, '\n', rest, j);
    }
    FindSubAfter(before + CRLF, LENGTH_FIELD, " " + Dec(n) + after);
    NumberRoundTrip(n, " ", after);
  }

  // ---------- framed messages ----------

  /** A head that ends where it should and announces a body of n bytes. */
  predicate Frames(head: string, n: nat) {
    HeadEnd(head) == Some(|head|) && Announced(head) == n
  }

  /** How many bytes of a message the loop waits for. */
  function Needed(head: string, body: string, expectBody: bool): nat {
    if expectBody then |head| + |body| else |head|
  }

  /** A framed message is complete exactly when all that is needed has arrived. */
  lemma CompleteIffArrived(head: string, body: string, extra: string, expectBody: bool, k: nat)
    requires HeadEnd(head) == Some(|head|) && (expectBody ==> Announced(head) == |body|)
    requires k <= |head + body + extra|
    ensures Complete((head + body + extra)[..k], expectBody) <==> k >= Needed(head, body, expectBody)
    ensures HeadEnd((head + body + extra)[..k]).Some? <==> k >= |head|
  {
    var s := head + body + extra;
    var p := s[..k];
    assert head[..|head|] == head;
    if k >= |head| {
      assert head <= p;
      HeadIsStable(head, p, expectBody);
    } else if HeadEnd(p).Some? {
      assert p <= head;
      HeadIsStable(p, head, expectBody);
    }
  }

  /** A call that the loop makes finds nothing before the last needed byte has arrived. The
      sockets do not block, so this happens whenever a part of a message is late. */
  ghost predicate Interrupted(stream: string, avail: nat -> nat, expectBody: bool, needed: nat) {
    exists k: nat :: InterruptedAt(stream, avail, expectBody, needed, k)
  }

  predicate InterruptedAt(stream: string, avail: nat -> nat, expectBody: bool, needed: nat, k: nat) {
    Makes(Course(stream, avail, expectBody), k) && |Arrived(stream, avail, k)| < needed && avail(k) == 0
  }

  /** The loop ends with all that is needed exactly if it is not interrupted. */
  lemma WholeIffUninterrupted(s: string, head: string, body: string,
                              avail: nat -> nat, expectBody: bool, needed: nat, k: nat)
    requires HeadEnd(head) == Some(|head|) && (expectBody ==> Announced(head) == |body|)
    requires head + body <= s && needed == Needed(head, body, expectBody)
    ensures Arrived(s, avail, k) <= s
    ensures StopsAfter(Course(s, avail, expectBody), k) ==>
              (|Arrived(s, avail, k)| < needed <==> Interrupted(s, avail, expectBody, needed))
  {
    ArrivedGrows(s, avail, k);
    if StopsAfter(Course(s, avail, expectBody), k) {
      WhyItStops(s, avail, expectBody, k);
      var extra := s[|head + body|..];
      assert s == head + body + extra;
      CompleteIffArrived(head, body, extra, expectBody, |Arrived(s, avail, k)|);
      if |Arrived(s, avail, k)| < needed {
        assert InterruptedAt(s, avail, expectBody, needed, k);
      }
      if Interrupted(s, avail, expectBody, needed) {
        var j: nat :| InterruptedAt(s, avail, expectBody, needed, j);
        EmptyCallStops(s, avail, expectBody, j);
        StopsOnce(Course(s, avail, expectBody), j, k);
      }
    }
  }

  lemma EmptyCallStops(stream: string, avail: nat -> nat, expectBody: bool, k: nat)
    requires Makes(Course(stream, avail, expectBody), k) && avail(k) == 0
    ensures StopsAfter(Course(stream, avail, expectBody), k)
  {
    var c := Course(stream, avail, expectBody);
    ArrivedGrows(stream, avail, k);
    assert c(k) == See(stream, avail, expectBody, k) && c(k + 1) == See(stream, avail, expectBody, k + 1);
  }

  lemma StopsOnce(c: nat -> Seen, j: nat, k: nat)
    requires StopsAfter(c, j) && StopsAfter(c, k)
    ensures j == k
  {
    if j < k {
      MakesFewer(c, j + 1, k);
    } else if k < j {
      MakesFewer(c, k + 1, j);
    }
  }

  // ---------- when the pointer dangles ----------

  /** A framed message can be moved exactly if the loop waits for a body, there is one, and
      the message is longer than the 3072 bytes that fit before the first move, and one
      more. */
  lemma FramedMovable(head: string, body: string, extra: string, expectBody: bool)
    requires HeadEnd(head) == Some(|head|) && (expectBody ==> Announced(head) == |body|) && |head| <= 4096
    ensures Movable(head + body + extra, expectBody) <==> expectBody && body != "" && |head| + |body| >= 3074
  {
    var s := head + body + extra;
    assert head[..|head|] == head && s == head + (body + extra);
    HeadIsStable(head, s, expectBody);
    if expectBody && body != "" && |head| + |body| >= 3074 {
      assert MovableAt(s, expectBody, LastButOne(head, body), 0);
    }
  }

  /** All of a message but its last byte, as far as it fits the first buffer. */
  function LastButOne(head: string, body: string): nat
    requires body != ""
  {
    Min(|head| + |body| - 1, 4096)
  }

  // ---------- printed requests ----------

  /** What follows the first line of a block. */
  function Behind(ls: seq<string>): (r: string)
    requires ls != []
    ensures |r| > 0 && r[0] == '\r'
  {
    if |ls| == 1 then BLANK else CRLF + Block(ls[1..]) + BLANK
  }

  lemma BlockFront(ls: seq<string>)
    requires ls != []
    ensures Block(ls) + BLANK == ls[0] + Behind(ls)
  {
  }

  /** A printed Content-Length line and what follows it. */
  lemma LengthLine(n: nat, more: seq<Header>)
    ensures Block(HeaderLines([Header(CONTENT_LENGTH, Dec(n))] + more)) + BLANK
         == LENGTH_FIELD + (" " + Dec(n) + Behind(HeaderLines([Header(CONTENT_LENGTH, Dec(n))] + more)))
  {
    var hs := [Header(CONTENT_LENGTH, Dec(n))] + more;
    var ls := HeaderLines(hs);
    BlockFront(ls);
    assert ls[0] == HeaderLine(hs[0]) == CONTENT_LENGTH + ": " + Dec(n);
    assert CONTENT_LENGTH + ": " == LENGTH_FIELD + " ";
    Regrouped(LENGTH_FIELD, " ", Dec(n), Behind(ls));
  }

  lemma Regrouped(a: string, b: string, c: string, d: string)
    ensures a + b + c + d == a + (b + c + d)
  {
  }

  /** The end of a head made of plain lines. */
  lemma HeadEndsThere(ls: seq<string>)
    requires ls != [] && PlainLines(ls)
    ensures HeadEnd(Lines(ls) + CRLF) == Some(|Lines(ls) + CRLF|)
  {
    LinesAreBlock(ls);
    assert Lines(ls) + CRLF == Block(ls) + BLANK + "";
    FirstBlank(ls, "");
  }

  lemma RequestFramed(r: Request)
    requires Printable(r) && FieldFree(r.path)
    ensures Frames(RequestHead(r), |r.body|)
  {
    var l, hs := RequestLine(r), SentHeaders(r);
    SentHeadersGood(r);
    HeaderLinesPlain(hs);
    RequestLinePlain(r.verb, r.path);
    HeadEndsThere([l] + HeaderLines(hs));
    RequestLineFree(r.verb, r.path);
    LineHead(l, hs, "");
    LengthLine(|r.body|, Others(r.headers));
    AnnouncedLength(|r.body|, l, Behind(HeaderLines(hs)));
    NothingFollows(RequestHead(r));
    NothingFollows(Block(HeaderLines(hs)) + BLANK);
  }

  lemma RequestLineFree(m: Method, path: string)
    requires FieldFree(path)
    ensures FieldFree(Name(m) + " " + path + " " + VERSION)
  {
    NameRoundTrip(m);
    ShortIsFree(Name(m));
    ShortIsFree(VERSION);
    FreeJoin(Name(m), ' ', path);
    FreeJoin(Name(m) + " " + path, ' ', VERSION);
  }

  /** Print, cut into any pieces, receive, parse: for every printable request whose path does
      not spell the length field, whatever follows it and however its bytes arrive, the
      parser gives back the same request, with the headers in order behind the printed
      Content-Length, unless the loop is interrupted. A request with a body does not come
      back if it is. */
  method PrintSendReceiveParse(r: Request, extra: string, avail: nat -> nat) returns (parsed: Parsed<Request>)
    requires Printable(r) && FieldFree(r.path) && |RequestHead(r)| < HEAD_SIZE
    ensures Outcome(r, Interrupted(PrintRequest(r) + extra, avail, true, |PrintRequest(r)|), parsed)
  {
    var sent := SendRequest(r);
    var stream := sent.value + extra;
    var msg, k := Receive(stream, avail, true);
    RequestFramed(r);
    WholeIffUninterrupted(stream, RequestHead(r), r.body, avail, true, |PrintRequest(r)|, k);
    RequestReceived(r, extra, msg);
    parsed := ParseRequest(msg);
  }

  /** A request comes back unless it was cut; one with a body does not come back if it was. */
  ghost predicate Outcome(r: Request, cut: bool, parsed: Parsed<Request>) {
    (!cut ==> ReadsBack(r, parsed)) && (cut && r.body != "" ==> !ReadsBack(r, parsed))
  }

  lemma RequestReceived(r: Request, extra: string, msg: string)
    requires Printable(r) && msg <= PrintRequest(r) + extra
    ensures Outcome(r, |msg| < |PrintRequest(r)|, ParseRequest(msg))
  {
    WholeParses(r, extra, msg);
    CutNeverParses(r, extra, msg);
  }

  lemma WholeParses(r: Request, extra: string, msg: string)
    requires Printable(r) && msg <= PrintRequest(r) + extra
    ensures |msg| >= |PrintRequest(r)| ==> ReadsBack(r, ParseRequest(msg))
  {
    if |msg| >= |PrintRequest(r)| {
      CutBehind(PrintRequest(r), extra, msg);
      RequestRoundTrip(r, msg[|PrintRequest(r)|..]);
    }
  }

  // ---------- a request that was cut ----------

  /** A printed request cut anywhere before its last byte is not read back: its body is not. */
  lemma CutNeverParses(r: Request, extra: string, msg: string)
    requires Printable(r) && msg <= PrintRequest(r) + extra
    ensures r.body != "" && |msg| < |PrintRequest(r)| ==>
              !(ParseRequest(msg).Accepted? && ParseRequest(msg).message.body == r.body)
  {
    var head := RequestHead(r);
    if r.body != "" && |msg| < |PrintRequest(r)| {
      assert msg <= head + r.body;
      if |msg| >= |head| {
        CutBehind(head, r.body, msg);
        CutInBody(r, msg[|head|..]);
      } else {
        assert msg <= head;
        CutInHead(r, msg);
      }
    }
  }

  lemma CutInBody(r: Request, cut: string)
    requires Printable(r)
    ensures var parsed := ParseRequest(RequestHead(r) + cut);
            parsed.Accepted? && |parsed.message.body| <= |cut|
  {
    var hs := SentHeaders(r);
    var rest := Block(HeaderLines(hs)) + BLANK + cut;
    SentHeadersGood(r);
    HeaderLinesPlain(hs);
    BlockEndFound(HeaderLines(hs), cut);
    LineHead(RequestLine(r), hs, cut);
    LineParsed(r.verb, r.path, rest);
    BodyFits(rest);
  }

  lemma BodyFits(rest: string)
    ensures |BodyOf(rest)| <= if BlockEnd(rest).1.Some? then |rest| - BlockEnd(rest).1.value else 0
  {
  }

  lemma CutInHead(r: Request, msg: string)
    requires Printable(r) && msg <= RequestHead(r) && |msg| < |RequestHead(r)|
    ensures ParseRequest(msg).Accepted? ==> ParseRequest(msg).message.body == ""
  {
    var ls := [RequestLine(r)] + HeaderLines(SentHeaders(r));
    SentHeadersGood(r);
    HeaderLinesPlain(SentHeaders(r));
    RequestLinePlain(r.verb, r.path);
    NoBlankBefore(ls, msg);
    if ParseRequest(msg).Accepted? {
      NoBlankNoBody(msg, FirstLine(msg).end + 1);
    }
  }

  predicate Blankless(s: string) {
    FindSub(s, BLANK).None? && FindSub(s, "\n\n").None?
  }

  /** There is no blank line before the end of a head. */
  lemma NoBlankBefore(ls: seq<string>, msg: string)
    requires ls != [] && PlainLines(ls) && msg <= Lines(ls) + CRLF && |msg| < |Lines(ls) + CRLF|
    ensures Blankless(msg)
  {
    var head := Block(ls) + BLANK + "";
    LinesAreBlock(ls);
    assert Lines(ls) + CRLF == head && head == msg + head[|msg|..];
    FirstBlank(ls, "");
    NoBareBlank(ls, "");
    if FindSub(msg, BLANK).Some? {
      FindSubExtends(msg, head[|msg|..], BLANK);
    }
    if FindSub(msg, "\n\n").Some? {
      FindSubExtends(msg, head[|msg|..], "\n\n");
      NoneAtEnd(Block(ls), FindSub(msg, "\n\n").value);
    }
  }

  lemma NoneAtEnd(b: string, j: nat)
    ensures j > |b| ==> !HasAt(b + BLANK + "", j, "\n\n")
  {
    var s := b + BLANK + "";
    CharAt(s, j, "\n\n", 0);
    CharAt(s, j, "\n\n", 1);
    assert s[|b| + 2] == '\r' && |s| == |b| + 4;
  }

  lemma NoBlankNoBody(buf: string, i: nat)
    requires i <= |buf| && Blankless(buf)
    ensures BodyOf(buf[i..]) == ""
  {
    var rest := buf[i..];
    assert buf == buf[..i] + rest;
    forall j: nat
      ensures !HasAt(rest, j, BLANK) && !HasAt(rest, j, "\n\n")
    {
      HasAtShift(buf[..i], rest, i + j, BLANK);
      HasAtShift(buf[..i], rest, i + j, "\n\n");
    }
  }

  // ---------- what is lost ----------

  /** Any request with a body is lost if its head arrives first and the body is not there yet
      when the loop looks for it. */
  lemma LateBodyIsLost(r: Request)
    requires Printable(r) && FieldFree(r.path) && |RequestHead(r)| < HEAD_SIZE && r.body != ""
    ensures Interrupted(PrintRequest(r), HeadFirst(r), true, |PrintRequest(r)|)
  {
    var s, avail := PrintRequest(r), HeadFirst(r);
    RequestFramed(r);
    assert s == RequestHead(r) + r.body + "";
    CompleteIffArrived(RequestHead(r), r.body, "", true, 0);
    var c := Course(s, avail, true);
    assert c(0) == See(s, avail, true, 0) && c(1) == See(s, avail, true, 1);
    assert Filled(|s|, avail, 1).len == |RequestHead(r)|;
    assert Makes(c, 0) && GoesOn(c, 0);
    assert InterruptedAt(s, avail, true, |s|, 1);
  }

  /** The head in one packet, and nothing at the next call. */
  function HeadFirst(r: Request): nat -> nat {
    var n := |RequestHead(r)|;
    (k: nat) => if k == 0 then n else 0
  }

  // ---------- the loop as written ----------

  /** The same through the loop as written, which may also run into a dangling pointer. */
  method PrintSendPointParse(r: Request, extra: string, avail: nat -> nat)
    returns (heard: Heard, parsed: Parsed<Request>)
    requires Printable(r) && FieldFree(r.path) && |RequestHead(r)| < HEAD_SIZE
    ensures heard.Dangling? <==> Dangles(Course(PrintRequest(r) + extra, avail, true))
    ensures heard.Got? ==> Outcome(r, Interrupted(PrintRequest(r) + extra, avail, true, |PrintRequest(r)|), parsed)
  {
    var sent := SendRequest(r);
    var stream := sent.value + extra;
    var k;
    heard, k := ReceiveByPointer(stream, avail, true);
    parsed := Refused(408);
    if heard.Got? {
      RequestFramed(r);
      WholeIffUninterrupted(stream, RequestHead(r), r.body, avail, true, |PrintRequest(r)|, k);
      RequestReceived(r, extra, heard.msg);
      parsed := ParseRequest(heard.msg);
    }
  }

  /** Some way of arriving, even one without an empty read, does that exactly if the request
      has a body and its printed form is 3074 bytes or longer. */
  lemma RequestDanglesIff(r: Request, extra: string)
    requires Printable(r) && FieldFree(r.path) && |RequestHead(r)| < HEAD_SIZE
    ensures (exists avail: nat -> nat :: Dangles(Course(PrintRequest(r) + extra, avail, true)))
       <==> r.body != "" && |PrintRequest(r)| >= 3074
    ensures r.body != "" && |PrintRequest(r)| >= 3074 ==>
              exists avail: nat -> nat :: Steady(avail) && Dangles(Course(PrintRequest(r) + extra, avail, true))
  {
    RequestFramed(r);
    FramedMovable(RequestHead(r), r.body, extra, true);
    DanglesIff(PrintRequest(r) + extra, true);
  }

  const UPLOAD := Request(POST, "/", [], seq(4000, _ => 'x'))

  /** For instance an upload of 4000 bytes of which all but the last arrive at once. */
  lemma UploadDangles()
    ensures Printable(UPLOAD) && FieldFree(UPLOAD.path) && |RequestHead(UPLOAD)| < HEAD_SIZE
    ensures var len := LastButOne(RequestHead(UPLOAD), UPLOAD.body);
            AtEdge(len, 0) && Dangles(Course(PrintRequest(UPLOAD), FillTo(len, 0), true))
  {
    var head, s := RequestHead(UPLOAD), PrintRequest(UPLOAD);
    ShortIsFree("/");
    assert Others([]) == [];
    assert Printable(UPLOAD);
    HeadStarts(UPLOAD);
    DecIsShort(4000);
    RequestFramed(UPLOAD);
    assert head[..|head|] == head;
    HeadIsStable(head, s, true);
    var len := LastButOne(head, UPLOAD.body);
    FillToDangles(Course(s, FillTo(len, 0), true), s, true, len, 0);
  }

  // ---------- printed responses ----------

  lemma ResponseFramed(r: Response, date: string, length: nat)
    requires Sendable(r, date) && FieldFree(r.reason) && FieldFree(date) && length <= ULONG_MAX
    ensures Frames(ResponseHead(r, date, length), length)
  {
    var l, hs := StatusLine(r), StampedHeaders(r, date, length);
    StampedGood(r, date, length);
    HeaderLinesPlain(hs);
    StatusLinePlain(r.code, r.reason);
    HeadEndsThere([l] + HeaderLines(hs));
    StampsFree(r, date);
    var own := [Header(CONTENT_LENGTH, Dec(length))] + Typed(r.headers);
    StampsSplit(r, date, length);
    LengthLine(length, Typed(r.headers));
    AnnouncedLength(length, Stamps(r, date), Behind(HeaderLines(own)));
  }

  /** The lines a response has before its length. */
  function Stamps(r: Response, date: string): string {
    StatusLine(r) + CRLF + ("Date: " + date) + CRLF + "Server: Foxtails"
  }

  lemma StampsFree(r: Response, date: string)
    requires FieldFree(r.reason) && FieldFree(date) && INT_MIN <= r.code <= INT_MAX
    ensures FieldFree(Stamps(r, date))
  {
    CodeReads(r.code);
    CodeIsShort(r.code);
    ShortIsFree(VERSION);
    ShortIsFree(Itoa(r.code));
    FreeJoin(VERSION, ' ', Itoa(r.code));
    FreeJoin(VERSION + " " + Itoa(r.code), ' ', r.reason);
    ShortIsFree("Date:");
    FreeJoin("Date:", ' ', date);
    assert "Date:" + [' '] + date == "Date: " + date;
    ShortIsFree("Server:");
    ShortIsFree("Foxtails");
    FreeJoin("Server:", ' ', "Foxtails");
    assert "Server:" + [' '] + "Foxtails" == "Server: Foxtails";
    FreeLine(StatusLine(r), "Date: " + date);
    FreeLine(StatusLine(r) + CRLF + ("Date: " + date), "Server: Foxtails");
  }

  lemma CodeIsShort(code: int)
    requires INT_MIN <= code <= INT_MAX
    ensures |Itoa(code)| < 15
  {
    DecIsShort(if code < 0 then 0 - code else code);
  }

  lemma StampsSplit(r: Response, date: string, length: nat)
    ensures var own := [Header(CONTENT_LENGTH, Dec(length))] + Typed(r.headers);
            ResponseHead(r, date, length) == Stamps(r, date) + CRLF + (Block(HeaderLines(own)) + BLANK)
  {
    var own := [Header(CONTENT_LENGTH, Dec(length))] + Typed(r.headers);
    var d, s, ls := "Date: " + date, "Server: Foxtails", HeaderLines(own);
    StampLines(date, own);
    assert StampedHeaders(r, date, length) == [Header("Date", date), Header("Server", "Foxtails")] + own;
    ThreeLines(StatusLine(r), d, s, ls);
  }

  lemma StampLines(date: string, own: seq<Header>)
    ensures HeaderLines([Header("Date", date), Header("Server", "Foxtails")] + own)
         == ["Date: " + date] + (["Server: Foxtails"] + HeaderLines(own))
  {
    assert "Date" + ": " + date == "Date: " + date && "Server" + ": " + "Foxtails" == "Server: Foxtails";
  }

  lemma ThreeLines(a: string, b: string, c: string, ls: seq<string>)
    requires ls != []
    ensures Lines([a] + ([b] + ([c] + ls))) + CRLF == a + CRLF + b + CRLF + c + CRLF + (Block(ls) + BLANK)
  {
    LinesCons(a, [b] + ([c] + ls));
    LinesCons(b, [c] + ls);
    LinesCons(c, ls);
    LinesAreBlock(ls);
    assert CRLF + CRLF == BLANK;
    Unnested(a, b, c, Block(ls), CRLF);
  }

  lemma Unnested(a: string, b: string, c: string, d: string, x: string)
    ensures a + x + (b + x + (c + x + (d + x))) + x == a + x + b + x + c + x + (d + (x + x))
  {
  }

  /** Print, cut, receive, parse for responses, unless the loop is interrupted. With a body
      expected, code, reason, body and the stamped headers come back; without, as in answer
      to HEAD, all but the body, of which any part may have come along. */
  method RespondSendReceiveParse(r: Response, date: string, length: nat, extra: string,
                                 avail: nat -> nat, expectBody: bool)
    returns (parsed: Parsed<Response>)
    requires Sendable(r, date) && FieldFree(r.reason) && FieldFree(date) && |ResponseHead(r, date, length)| < HEAD_SIZE
    requires length <= ULONG_MAX && (expectBody ==> length == |r.body|)
    ensures var needed := Needed(ResponseHead(r, date, length), r.body, expectBody);
            !Interrupted(PrintResponse(r, date, length) + extra, avail, expectBody, needed) ==>
              ComesBack(r, date, length, parsed, expectBody)
  {
    var sent := SendResponse(r, date, length);
    var stream := sent.value + extra;
    var msg, k := Receive(stream, avail, expectBody);
    ResponseFramed(r, date, length);
    var needed := Needed(ResponseHead(r, date, length), r.body, expectBody);
    WholeIffUninterrupted(stream, ResponseHead(r, date, length), r.body, avail, expectBody, needed, k);
    ResponseReceived(r, date, length, extra, expectBody, msg);
    parsed := ParseResponse(msg);
  }

  /** r comes back with its stamped headers, and with its body if that was expected. */
  predicate ComesBack(r: Response, date: string, length: nat, parsed: Parsed<Response>, expectBody: bool) {
    && parsed.Accepted?
    && Stamped(parsed.message.headers, r, date, length)
    && parsed.message == r.(headers := parsed.message.headers, body := parsed.message.body)
    && (expectBody ==> parsed.message.body == r.body)
  }

  lemma ResponseReceived(r: Response, date: string, length: nat, extra: string, expectBody: bool, msg: string)
    requires Sendable(r, date) && length <= ULONG_MAX && (expectBody ==> length == |r.body|)
    requires msg <= PrintResponse(r, date, length) + extra
    ensures |msg| >= Needed(ResponseHead(r, date, length), r.body, expectBody) ==>
              ComesBack(r, date, length, ParseResponse(msg), expectBody)
  {
    if |msg| >= Needed(ResponseHead(r, date, length), r.body, expectBody) {
      if expectBody {
        WholeParsed(r, date, extra, msg);
      } else {
        HeadParsed(r, date, length, extra, msg);
      }
    }
  }

  lemma WholeParsed(r: Response, date: string, extra: string, msg: string)
    requires Sendable(r, date) && |r.body| <= ULONG_MAX
    requires msg <= PrintResponse(r, date, |r.body|) + extra && |msg| >= |PrintResponse(r, date, |r.body|)|
    ensures ComesBack(r, date, |r.body|, ParseResponse(msg), true)
  {
    var sent := PrintResponse(r, date, |r.body|);
    CutBehind(sent, extra, msg);
    ResponseRoundTrip(r, date, msg[|sent|..]);
  }

  lemma HeadParsed(r: Response, date: string, length: nat, extra: string, msg: string)
    requires Sendable(r, date) && length <= ULONG_MAX
    requires msg <= PrintResponse(r, date, length) + extra && |msg| >= |ResponseHead(r, date, length)|
    ensures ComesBack(r, date, length, ParseResponse(msg), false)
  {
    var head := ResponseHead(r, date, length);
    assert head + r.body + extra == head + (r.body + extra);
    CutBehind(head, r.body + extra, msg);
    HeadReads(r, date, length, msg[|head|..]);
  }

  lemma CutBehind(front: string, rest: string, msg: string)
    requires msg <= front + rest && |msg| >= |front|
    ensures msg == front + msg[|front|..]
  {
  }

  /** A printed head and whatever follows it. */
  lemma HeadReads(r: Response, date: string, length: nat, tail: string)
    requires Sendable(r, date) && length <= ULONG_MAX
    ensures ComesBack(r, date, length, ParseResponse(ResponseHead(r, date, length) + tail), false)
  {
    var hs := StampedHeaders(r, date, length);
    StampedGood(r, date, length);
    StampedAre(r, date, length);
    LineHead(StatusLine(r), hs, tail);
    var buf := StatusLine(r) + CRLF + (Block(HeaderLines(hs)) + BLANK + tail);
    assert ResponseHead(r, date, length) + tail == buf;
    ParsePrinted(r.code, r.reason, hs, tail);
  }

  /** Through the loop as written, some way of arriving makes the pointer dangle exactly if a
      body is expected, there is one and the printed response is 3074 bytes or longer. */
  lemma ResponseDanglesIff(r: Response, date: string, length: nat, extra: string, expectBody: bool)
    requires Sendable(r, date) && FieldFree(r.reason) && FieldFree(date) && |ResponseHead(r, date, length)| < HEAD_SIZE
    requires length <= ULONG_MAX && (expectBody ==> length == |r.body|)
    ensures (exists avail: nat -> nat :: Dangles(Course(PrintResponse(r, date, length) + extra, avail, expectBody)))
       <==> expectBody && r.body != "" && |PrintResponse(r, date, length)| >= 3074
    ensures expectBody && r.body != "" && |PrintResponse(r, date, length)| >= 3074 ==>
              exists avail: nat -> nat ::
                Steady(avail) && Dangles(Course(PrintResponse(r, date, length) + extra, avail, expectBody))
  {
    ResponseFramed(r, date, length);
    FramedMovable(ResponseHead(r, date, length), r.body, extra, expectBody);
    DanglesIff(PrintResponse(r, date, length) + extra, expectBody);
  }
}
