/** The bytes that the printers put on the wire, spelled out. */
module HttpBytes {
  import opened CStrings
  import opened HttpMethods
  import opened HttpHeaders
  import opened HttpMessages
  import opened HttpRoundTrip

  /** A header line for every header. */
  function HeaderBytes(hs: seq<Header>): string {
    if hs == [] then "" else hs[0].name + ": " + hs[0].value + "\r\n" + HeaderBytes(hs[1..])
  }

  /** A header line for every header but the lengths. */
  function OtherBytes(hs: seq<Header>): string {
    if hs == [] then ""
    else if SameName(hs[0].name, "Content-Length") then OtherBytes(hs[1..])
    else hs[0].name + ": " + hs[0].value + "\r\n" + OtherBytes(hs[1..])
  }

  lemma {:induction false} HeaderLinesCons(hs: seq<Header>)
    requires hs != []
    ensures HeaderLines(hs) == [HeaderLine(hs[0])] + HeaderLines(hs[1..])
  {
  }

  lemma {:induction false} LinesAreBytes(hs: seq<Header>)
    ensures Lines(HeaderLines(hs)) == HeaderBytes(hs)
  {
    if hs != [] {
      LinesAreBytes(hs[1..]);
      HeaderLinesCons(hs);
      LinesCons(HeaderLine(hs[0]), HeaderLines(hs[1..]));
    }
  }

  lemma {:induction false} OthersCons(hs: seq<Header>)
    requires hs != []
    ensures Others(hs) == (if SameName(hs[0].name, "Content-Length") then [] else [hs[0]]) + Others(hs[1..])
  {
    if |hs| > 1 {
      var init := hs[..|hs| - 1];
      OthersCons(init);
      assert hs[1..][..|hs| - 2] == init[1..];
    } else {
      assert hs[..0] == [] && hs[1..] == [];
    }
  }

  lemma {:induction false} OthersAreBytes(hs: seq<Header>)
    ensures HeaderBytes(Others(hs)) == OtherBytes(hs)
  {
    if hs != [] {
      OthersAreBytes(hs[1..]);
      OthersCons(hs);
      assert ([hs[0]] + Others(hs[1..]))[1..] == Others(hs[1..]);
      assert [] + Others(hs[1..]) == Others(hs[1..]);
    }
  }

  lemma HeadBytes(line: string, hs: seq<Header>)
    ensures Lines([line] + HeaderLines(hs)) == line + "\r\n" + HeaderBytes(hs)
  {
    LinesCons(line, HeaderLines(hs));
    LinesAreBytes(hs);
  }

  lemma OneHeader(h: Header, hs: seq<Header>)
    ensures HeaderBytes([h] + hs) == h.name + ": " + h.value + "\r\n" + HeaderBytes(hs)
  {
    assert ([h] + hs)[1..] == hs;
  }

  lemma {:induction false} HeaderBytesAppend(hs: seq<Header>, h: Header)
    ensures HeaderBytes(hs + [h]) == HeaderBytes(hs) + (h.name + ": " + h.value + "\r\n")
  {
    if hs == [] {
      assert hs + [h] == [h] + [];
      OneHeader(h, []);
    } else {
      HeaderBytesAppend(hs[1..], h);
      assert (hs + [h])[1..] == hs[1..] + [h];
    }
  }

  /** A request on the wire. */
  lemma RequestBytes(r: Request)
    ensures var headers := "Content-Length" + ": " + Dec(|r.body|) + "\r\n" + OtherBytes(r.headers);
            PrintRequest(r) == Name(r.verb) + " " + r.path + " " + "HTTP/1.1" + "\r\n" + headers + "\r\n" + r.body
  {
    HeadBytes(RequestLine(r), SentHeaders(r));
    OneHeader(Header("Content-Length", Dec(|r.body|)), Others(r.headers));
    OthersAreBytes(r.headers);
  }

  /** A response on the wire: a content type is added exactly if it has none. */
  lemma ResponseBytes(r: Response, date: string, length: nat)
    requires |r.headers| < 32
    ensures var sized := "Content-Length" + ": " + Dec(length) + "\r\n" + OwnBytes(r.headers);
            var headers := "Date" + ": " + date + "\r\n" + ("Server" + ": " + "Foxtails" + "\r\n" + sized);
            var line := "HTTP/1.1" + " " + Itoa(r.code) + " " + r.reason;
            PrintResponse(r, date, length) == line + "\r\n" + headers + "\r\n" + r.body
  {
    var d, s, l := Header("Date", date), Header("Server", "Foxtails"), Header("Content-Length", Dec(length));
    StampsCons(r, date, length);
    HeadBytes(StatusLine(r), StampedHeaders(r, date, length));
    OneHeader(d, [s] + ([l] + Typed(r.headers)));
    OneHeader(s, [l] + Typed(r.headers));
    OneHeader(l, Typed(r.headers));
    TypedBytes(r.headers);
  }

  lemma StampsCons(r: Response, date: string, length: nat)
    ensures StampedHeaders(r, date, length)
         == [Header("Date", date)]
          + ([Header("Server", "Foxtails")] + ([Header("Content-Length", Dec(length))] + Typed(r.headers)))
  {
  }

  /** The response's own headers, and a content type if there is none among them. */
  function OwnBytes(hs: seq<Header>): string {
    if Untyped(hs) then HeaderBytes(hs) + ("Content-Type" + ": " + "text/plain" + "\r\n") else HeaderBytes(hs)
  }

  lemma TypedBytes(hs: seq<Header>)
    requires |hs| < 32
    ensures HeaderBytes(Typed(hs)) == OwnBytes(hs)
  {
    var k := Place(hs, CONTENT_TYPE);
    assert k < |hs| ==> !Untyped(hs);
    if Untyped(hs) {
      HeaderBytesAppend(hs, Header("Content-Type", "text/plain"));
    }
  }

  /** The nine methods on the wire. */
  lemma MethodBytes()
    ensures [Name(GET), Name(HEAD), Name(POST), Name(PUT), Name(DELETE)] == ["GET", "HEAD", "POST", "PUT", "DELETE"]
    ensures [Name(CONNECT), Name(OPTIONS), Name(TRACE), Name(PATCH)] == ["CONNECT", "OPTIONS", "TRACE", "PATCH"]
  {
  }
}
