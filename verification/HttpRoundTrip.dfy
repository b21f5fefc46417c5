/** What the printers write, the receive loop frames and the parsers read back. */
module HttpRoundTrip {
  import opened Options
  import opened CStrings
  import opened HttpMethods
  import opened HttpHeaders
  import opened HttpMessages

  // ---------- lines and blocks ----------

  /** A line that cannot be confused with a line end. */
  predicate PlainLine(l: string) {
    l != "" && Without(l, '\n') && l[|l| - 1] != '\r'
  }

  predicate PlainLines(ls: seq<string>) {
    forall i | 0 <= i < |ls| :: PlainLine(ls[i])
  }

  /** Lines joined by line ends. */
  function Block(ls: seq<string>): string
    requires ls != []
  {
    if |ls| == 1 then ls[0] else ls[0] + CRLF + Block(ls[1..])
  }

  lemma {:induction false} LinesCons(l: string, ls: seq<string>)
    ensures Lines([l] + ls) == l + CRLF + Lines(ls)
  {
    if ls == [] {
      assert [l] + ls == [] + [l];
      LinesSnoc([], l);
    } else {
      var init, last := ls[..|ls| - 1], ls[|ls| - 1];
      LinesCons(l, init);
      assert [l] + ls == ([l] + init) + [last];
      LinesSnoc([l] + init, last);
      assert l + CRLF + Lines(init) + last + CRLF == l + CRLF + (Lines(init) + last + CRLF);
    }
  }

  lemma {:induction false} LinesAreBlock(ls: seq<string>)
    requires ls != []
    ensures Lines(ls) == Block(ls) + CRLF
  {
    assert ls == [ls[0]] + ls[1..];
    LinesCons(ls[0], ls[1..]);
    if |ls| > 1 {
      LinesAreBlock(ls[1..]);
      assert ls[0] + CRLF + (Block(ls[1..]) + CRLF) == ls[0] + CRLF + Block(ls[1..]) + CRLF;
    }
  }

  /** No blank line starts inside a line or at its end unless the next one is empty. */
  lemma NoBlankInLine(l: string, next: string)
    requires PlainLine(l) && |next| >= 2 && next[1] != '\n'
    ensures forall j | 0 <= j < |l| + 2 :: !HasAt(l + CRLF + next, j, BLANK)
  {
    var s := l + CRLF + next;
    assert s[|l|] == '\r' && s[|l| + 1] == '\n' && s[|l| + 3] == next[1];
    forall j | 0 <= j < |l| + 2
      ensures !HasAt(s, j, BLANK)
    {
      CharAt(s, j, BLANK, 0);
      CharAt(s, j, BLANK, 1);
      CharAt(s, j, BLANK, 3);
      assert j + 1 < |l| ==> s[j + 1] == l[j + 1];
    }
  }

  lemma BlockStart(ls: seq<string>, tail: string)
    requires ls != [] && PlainLines(ls)
    ensures var s := Block(ls) + BLANK + tail; |s| >= 2 && s[0] != '\n' && s[1] != '\n'
  {
    var s := Block(ls) + BLANK + tail;
    assert PlainLine(ls[0]);
    assert ls[0] <= Block(ls);
    assert s[0] == ls[0][0];
    if |ls[0]| == 1 {
      if |ls| > 1 { assert Block(ls)[1] == CRLF[0]; }
    } else {
      assert s[1] == ls[0][1];
    }
  }

  lemma BlockSplit(ls: seq<string>, tail: string)
    requires |ls| > 1
    ensures Block(ls) + BLANK + tail == ls[0] + CRLF + (Block(ls[1..]) + BLANK + tail)
  {
  }

  /** The first blank line of a message is the one behind its head. */
  lemma {:induction false} FirstBlank(ls: seq<string>, tail: string)
    requires ls != [] && PlainLines(ls)
    ensures FindSub(Block(ls) + BLANK + tail, BLANK) == Some(|Block(ls)|)
  {
    var l, s := ls[0], Block(ls) + BLANK + tail;
    if |ls| == 1 {
      assert PlainLine(l);
      assert s[|l|..|l| + 4] == BLANK;
      forall j | 0 <= j < |l|
        ensures !HasAt(s, j, BLANK)
      {
        CharAt(s, j, BLANK, 1);
        assert j + 1 < |l| ==> s[j + 1] == l[j + 1];
      }
      FindSubIs(s, BLANK, |l|);
    } else {
      var next := Block(ls[1..]) + BLANK + tail;
      FirstBlank(ls[1..], tail);
      BlockStart(ls[1..], tail);
      assert PlainLine(l);
      NoBlankInLine(l, next);
      FindSubSkip(l + CRLF, next, BLANK);
      BlockSplit(ls, tail);
    }
  }

  /** No empty line in the "\n\n" style starts before the end of the head. */
  lemma {:induction false} NoBareBlank(ls: seq<string>, tail: string)
    requires ls != [] && PlainLines(ls)
    ensures forall j | 0 <= j < |Block(ls)| + 1 :: !HasAt(Block(ls) + BLANK + tail, j, "\n\n")
  {
    var l, s := ls[0], Block(ls) + BLANK + tail;
    assert PlainLine(l);
    if |ls| == 1 {
      forall j | 0 <= j < |l| + 1
        ensures !HasAt(s, j, "\n\n")
      {
        CharAt(s, j, "\n\n", 0);
        assert j < |l| ==> s[j] == l[j];
        assert s[|l|] == '\r';
      }
    } else {
      var next := Block(ls[1..]) + BLANK + tail;
      NoBareBlank(ls[1..], tail);
      BlockStart(ls[1..], tail);
      BlockSplit(ls, tail);
      forall j | 0 <= j < |Block(ls)| + 1
        ensures !HasAt(s, j, "\n\n")
      {
        if j >= |l| + 2 {
          HasAtShift(l + CRLF, next, j, "\n\n");
        } else {
          CharAt(s, j, "\n\n", 0);
          CharAt(s, j, "\n\n", 1);
          assert j < |l| ==> s[j] == l[j];
          assert s[|l|] == '\r' && s[|l| + 2] == next[0];
        }
      }
    }
  }

  /** The parser cuts a printed message at the end of its head. */
  lemma BlockEndFound(ls: seq<string>, tail: string)
    requires ls != [] && PlainLines(ls)
    ensures var s := Block(ls) + BLANK + tail;
            && BlockEnd(s) == (|Block(ls)|, Some(|Block(ls)| + 4))
            && s[..|Block(ls)|] == Block(ls) && s[|Block(ls)| + 4..] == tail
  {
    FirstBlank(ls, tail);
    NoBareBlank(ls, tail);
    var s := Block(ls) + BLANK + tail;
    var lf := FindSub(s, "\n\n");
    assert lf.Some? ==> lf.value > |Block(ls)|;
  }

  // ---------- tokens ----------

  lemma TokensFront(x: string, rest: string)
    requires x != "" && Without(x, '\n')
    ensures Tokens(x + "\n" + rest, NEWLINE) == [x] + Tokens(rest, NEWLINE)
  {
    var s := x + "\n" + rest;
    StrtokIs(s, NEWLINE, |x|);
    TokensUnfold(s, NEWLINE, Token(0, |x|));
    assert Text(s, Token(0, |x|)) == x && s[|x| + 1..] == rest;
  }

  lemma TokensLast(x: string)
    requires x != "" && Without(x, '\n')
    ensures Tokens(x, NEWLINE) == [x]
  {
    StrtokIs(x, NEWLINE, |x|);
    TokensUnfold(x, NEWLINE, Token(0, |x|));
    assert Text(x, Token(0, |x|)) == x && x[|x|..] == "";
    assert Strtok("", NEWLINE).NoToken?;
  }

  /** The lines as strtok sees them: all but the last keep their carriage return. */
  function Torn(ls: seq<string>): seq<string> {
    if |ls| <= 1 then ls else [ls[0] + "\r"] + Torn(ls[1..])
  }

  lemma BlockSplitLf(ls: seq<string>)
    requires |ls| > 1
    ensures Block(ls) == ls[0] + "\r" + "\n" + Block(ls[1..])
  {
  }

  lemma {:induction false} BlockTokens(ls: seq<string>)
    requires ls != [] && PlainLines(ls)
    ensures Tokens(Block(ls), NEWLINE) == Torn(ls)
  {
    assert PlainLine(ls[0]);
    if |ls| == 1 {
      TokensLast(ls[0]);
    } else {
      BlockTokens(ls[1..]);
      BlockSplitLf(ls);
      TokensFront(ls[0] + "\r", Block(ls[1..]));
    }
  }

  lemma CarriageReturnDropped(l: string)
    requires PlainLine(l)
    ensures LineHeader(l + "\r") == LineHeader(l)
  {
    assert (l + "\r")[..|l|] == l;
    assert Chomp(l + "\r") == l == Chomp(l);
  }

  lemma {:induction false} TornIs(ls: seq<string>)
    ensures |Torn(ls)| == |ls|
    ensures forall i | 0 <= i < |ls| :: Torn(ls)[i] == if i < |ls| - 1 then ls[i] + "\r" else ls[i]
  {
    if |ls| > 1 { TornIs(ls[1..]); }
  }

  lemma TornHeaders(ls: seq<string>)
    requires PlainLines(ls)
    ensures |Torn(ls)| == |ls| && forall i | 0 <= i < |ls| :: LineHeader(Torn(ls)[i]) == LineHeader(ls[i])
  {
    TornIs(ls);
    forall i | 0 <= i < |ls|
      ensures LineHeader(Torn(ls)[i]) == LineHeader(ls[i])
    {
      assert PlainLine(ls[i]);
      CarriageReturnDropped(ls[i]);
    }
  }

  lemma {:induction false} SameTable(a: seq<string>, b: seq<string>)
    requires |a| == |b| && forall i | 0 <= i < |a| :: LineHeader(a[i]) == LineHeader(b[i])
    ensures Table(a) == Table(b)
  {
    if a != [] {
      SameTable(a[..|a| - 1], b[..|b| - 1]);
    }
  }

  // ---------- headers ----------

  predicate PlainHeader(h: Header) {
    && Without(h.name, ':') && Without(h.name, '\n') && Without(h.name, '\0')
    && Without(h.value, '\n') && Without(h.value, '\0')
    && (h.value != "" ==> h.value[0] != ' ' && h.value[|h.value| - 1] != '\r')
  }

  predicate PlainHeaders(hs: seq<Header>) {
    forall i | 0 <= i < |hs| :: PlainHeader(hs[i])
  }

  lemma HeaderLinePlain(h: Header)
    requires PlainHeader(h)
    ensures PlainLine(HeaderLine(h)) && Without(HeaderLine(h), '\0')
  {
    var l := HeaderLine(h);
    assert l[|h.name|] == ':' && l[|h.name| + 1] == ' ';
    assert h.value == "" ==> l[|l| - 1] == ' ';
    assert h.value != "" ==> l[|l| - 1] == h.value[|h.value| - 1];
  }

  lemma HeaderLineReads(h: Header)
    requires PlainHeader(h)
    ensures LineHeader(HeaderLine(h)) == Some(h)
  {
    var l, rest := HeaderLine(h), " " + h.value;
    HeaderLinePlain(h);
    assert Chomp(l) == l;
    assert l == h.name + ":" + rest;
    FindSep(h.name, ':', rest);
    SkipInIs(rest, {' '}, 1);
    assert rest[1..] == h.value;
  }

  lemma HeadersRead(hs: seq<Header>)
    requires PlainHeaders(hs) && Distinct(hs) && |hs| <= MAX_HEADERS
    ensures Table(HeaderLines(hs)) == hs
  {
    var ls := HeaderLines(hs);
    forall k | 0 <= k < |hs|
      ensures Readable(ls, hs, k)
    {
      assert PlainHeader(hs[k]);
    }
    LinesRead(ls, hs, |hs|);
    assert ls[..|hs|] == ls && hs[..|hs|] == hs;
  }

  /** Line k is that of a plain header with a name of its own. */
  ghost predicate Readable(ls: seq<string>, hs: seq<Header>, k: nat)
    requires k < |hs| == |ls|
  {
    && ls[k] == HeaderLine(hs[k]) && PlainHeader(hs[k])
    && forall i | 0 <= i < k :: !SameName(hs[i].name, hs[k].name)
  }

  lemma {:induction false} LinesRead(ls: seq<string>, hs: seq<Header>, k: nat)
    requires k <= |hs| == |ls| && |hs| <= MAX_HEADERS && forall i | 0 <= i < |hs| :: Readable(ls, hs, i)
    ensures Table(ls[..k]) == hs[..k]
  {
    if k > 0 {
      LinesRead(ls, hs, k - 1);
      LineRead(ls, hs, k - 1);
    }
  }

  lemma LineRead(ls: seq<string>, hs: seq<Header>, k: nat)
    requires k < |hs| == |ls| && |hs| <= MAX_HEADERS && Readable(ls, hs, k) && Table(ls[..k]) == hs[..k]
    ensures Table(ls[..k + 1]) == hs[..k + 1]
  {
    NoneBefore(hs, k);
    ReadNew(ls[..k], hs[..k], hs[k]);
    Snoc(ls, k);
    Snoc(hs, k);
  }

  lemma NoneBefore(hs: seq<Header>, k: nat)
    requires k < |hs| && forall i | 0 <= i < k :: !SameName(hs[i].name, hs[k].name)
    ensures Place(hs[..k], hs[k].name) == k
  {
    PlaceIs(hs[..k], hs[k].name, k);
  }

  lemma Snoc<T>(s: seq<T>, k: nat)
    requires k < |s|
    ensures s[..k + 1] == s[..k] + [s[k]]
  {
  }

  lemma ReadNew(ls: seq<string>, t: seq<Header>, h: Header)
    requires Table(ls) == t && |t| < MAX_HEADERS && PlainHeader(h) && Place(t, h.name) == |t|
    ensures Table(ls + [HeaderLine(h)]) == t + [h]
  {
    TableSnoc(ls, HeaderLine(h));
    HeaderLineReads(h);
  }

  lemma HeaderLinesPlain(hs: seq<Header>)
    requires PlainHeaders(hs)
    ensures PlainLines(HeaderLines(hs))
    ensures forall i | 0 <= i < |hs| :: Without(HeaderLines(hs)[i], '\0')
  {
    forall i | 0 <= i < |hs|
      ensures PlainLine(HeaderLines(hs)[i]) && Without(HeaderLines(hs)[i], '\0')
    {
      assert PlainHeader(hs[i]);
      HeaderLinePlain(hs[i]);
    }
  }

  lemma {:induction false} BlockWithoutNul(ls: seq<string>)
    requires ls != [] && forall i | 0 <= i < |ls| :: Without(ls[i], '\0')
    ensures Without(Block(ls), '\0')
  {
    assert Without(ls[0], '\0');
    if |ls| > 1 { BlockWithoutNul(ls[1..]); }
  }

  /** The headers behind a printed first line are read back as they were. */
  lemma HeadersOfPrinted(hs: seq<Header>, tail: string)
    requires hs != [] && PlainHeaders(hs) && Distinct(hs) && |hs| <= MAX_HEADERS
    ensures HeadersOf(Block(HeaderLines(hs)) + BLANK + tail) == hs
  {
    var ls := HeaderLines(hs);
    HeaderLinesPlain(hs);
    BlockEndFound(ls, tail);
    BlockWithoutNul(ls);
    BlockTokens(ls);
    TornHeaders(ls);
    SameTable(Torn(ls), ls);
    HeadersRead(hs);
  }

  /** And so is the body, as long as its declared length is all there. */
  lemma BodyOfPrinted(hs: seq<Header>, body: string, extra: string)
    requires hs != [] && PlainHeaders(hs) && Distinct(hs) && |hs| <= MAX_HEADERS
    requires DeclaredLength(hs) == |body|
    ensures BodyOf(Block(HeaderLines(hs)) + BLANK + (body + extra)) == body
  {
    var rest := Block(HeaderLines(hs)) + BLANK + (body + extra);
    HeaderLinesPlain(hs);
    HeadersOfPrinted(hs, body + extra);
    BlockEndFound(HeaderLines(hs), body + extra);
    BodyIs(rest, |Block(HeaderLines(hs))| + 4, body, extra);
  }

  lemma BodyIs(rest: string, start: nat, body: string, extra: string)
    requires BlockEnd(rest).1 == Some(start) && rest[start..] == body + extra
    requires DeclaredLength(HeadersOf(rest)) == |body|
    ensures BodyOf(rest) == body
  {
    BodyFrom(rest, start, body + extra);
    if extra == "" { NothingFollows(body); }
  }

  lemma BodyFrom(rest: string, start: nat, tail: string)
    requires BlockEnd(rest).1 == Some(start) && rest[start..] == tail
    ensures var n := DeclaredLength(HeadersOf(rest));
            BodyOf(rest) == if n < |tail| then tail[..n] else tail
  {
    CutFrom(rest, start, DeclaredLength(HeadersOf(rest)));
  }

  lemma CutFrom(s: string, start: nat, n: nat)
    requires start <= |s|
    ensures n < |s| - start ==> s[start..start + n] == s[start..][..n]
  {
  }

  /** A declared length with nothing behind the head gives no body. */
  lemma BodyOfHeadOnly(hs: seq<Header>)
    requires hs != [] && PlainHeaders(hs) && Distinct(hs) && |hs| <= MAX_HEADERS
    ensures BodyOf(Block(HeaderLines(hs)) + BLANK + "") == ""
  {
    HeaderLinesPlain(hs);
    BlockEndFound(HeaderLines(hs), "");
  }

  lemma DeclaredIs(hs: seq<Header>, i: nat, n: nat)
    requires i < |hs| && Distinct(hs) && hs[i] == Header(CONTENT_LENGTH, Dec(n)) && n <= ULONG_MAX
    ensures DeclaredLength(hs) == n
  {
    PlaceIs(hs, CONTENT_LENGTH, i);
    NumberRoundTrip(n, "", "");
    assert "" + Dec(n) + "" == Dec(n);
  }

  // ---------- the first line ----------

  lemma FirstLinePrinted(line: string, rest: string)
    requires PlainLine(line)
    ensures FirstLine(line + CRLF + rest) == Line(line, |line| + 1)
    ensures (line + CRLF + rest)[|line| + 2..] == rest
  {
    var s := line + CRLF + rest;
    FindIs(s, '\n', |line| + 1);
    assert s[..|line| + 1] == line + "\r";
    assert (line + "\r")[..|line|] == line;
  }

  lemma LineHead(line: string, hs: seq<Header>, body: string)
    requires hs != []
    ensures Lines([line] + HeaderLines(hs)) + CRLF + body == line + CRLF + (Block(HeaderLines(hs)) + BLANK + body)
  {
    LinesCons(line, HeaderLines(hs));
    LinesAreBlock(HeaderLines(hs));
    assert CRLF + CRLF == BLANK;
  }

  // ---------- requests ----------

  predicate PlainPath(p: string) {
    Without(p, ' ') && Without(p, '\n') && Without(p, '\0')
  }

  /** Requests whose parts are free of the delimiters around them. */
  ghost predicate Printable(r: Request) {
    && PlainPath(r.path)
    && PlainHeaders(r.headers) && Distinct(r.headers)
    && (|| |r.headers| < 32
        || (|r.headers| == 32 && exists i | 0 <= i < 32 :: SameName(r.headers[i].name, "Content-Length")))
    && |r.body| <= ULONG_MAX
  }

  /** os are headers of hs other than Content-Length. */
  ghost predicate OthersOf(os: seq<Header>, hs: seq<Header>) {
    && PlainHeaders(os) && Distinct(os)
    && forall i | 0 <= i < |os| :: os[i] in hs && !SameName(os[i].name, CONTENT_LENGTH)
  }

  lemma OneMoreOther(os: seq<Header>, hs: seq<Header>, h: Header)
    requires OthersOf(os, hs) && PlainHeader(h)
    requires forall k | 0 <= k < |hs| :: !SameName(hs[k].name, h.name)
    ensures OthersOf(os, hs + [h])
    ensures !SameName(h.name, CONTENT_LENGTH) ==> OthersOf(os + [h], hs + [h])
  {
    forall i | 0 <= i < |os|
      ensures os[i] in hs + [h] && !SameName(os[i].name, h.name)
    {
      var k :| 0 <= k < |hs| && hs[k] == os[i];
    }
  }

  lemma {:induction false} OthersKeep(hs: seq<Header>)
    requires PlainHeaders(hs) && Distinct(hs)
    ensures OthersOf(Others(hs), hs)
  {
    if hs != [] {
      var init, h := hs[..|hs| - 1], hs[|hs| - 1];
      OthersKeep(init);
      assert PlainHeader(h);
      assert forall k | 0 <= k < |init| :: init[k] == hs[k];
      OneMoreOther(Others(init), init, h);
      assert hs == init + [h];
    }
  }

  lemma {:induction false} OthersAre(hs: seq<Header>)
    requires Distinct(hs)
    ensures (forall i | 0 <= i < |hs| :: !SameName(hs[i].name, "Content-Length")) ==> Others(hs) == hs
    ensures forall i | 0 <= i < |hs| && SameName(hs[i].name, "Content-Length") :: Others(hs) == hs[..i] + hs[i + 1..]
  {
    if hs != [] {
      var init, h := hs[..|hs| - 1], hs[|hs| - 1];
      OthersAre(init);
      assert hs == init + [h];
      forall i | 0 <= i < |hs| && SameName(hs[i].name, "Content-Length")
        ensures Others(hs) == hs[..i] + hs[i + 1..]
      {
        OnlyOne(hs, i);
        OneMoreHeader(init, h, i);
        assert i < |init| ==> init[i] == hs[i];
        assert i == |init| ==> forall j | 0 <= j < |init| :: init[j] == hs[j];
      }
    }
  }

  /** Leaving out header i, with one more header behind. */
  lemma OneMoreHeader(init: seq<Header>, h: Header, i: nat)
    requires i <= |init|
    ensures i < |init| ==> (init + [h])[..i] + (init + [h])[i + 1..] == (init[..i] + init[i + 1..]) + [h]
    ensures i == |init| ==> (init + [h])[..i] + (init + [h])[i + 1..] == init
  {
  }

  lemma OnlyOne(hs: seq<Header>, i: nat)
    requires Distinct(hs) && i < |hs| && SameName(hs[i].name, "Content-Length")
    ensures forall j | 0 <= j < |hs| && j != i :: !SameName(hs[j].name, "Content-Length")
  {
    forall j | 0 <= j < |hs| && j != i
      ensures !SameName(hs[j].name, "Content-Length")
    {
      assert if i < j then !SameName(hs[i].name, hs[j].name) else !SameName(hs[j].name, hs[i].name);
    }
  }

  lemma DecIsPlain(n: nat)
    ensures PlainHeader(Header(CONTENT_LENGTH, Dec(n)))
  {
    var d := Dec(n);
    assert forall i | 0 <= i < |d| :: IsDigit(d[i]);
  }

  lemma FewOthers(hs: seq<Header>)
    requires Distinct(hs)
    requires |hs| < 32 || (|hs| == 32 && exists i | 0 <= i < 32 :: SameName(hs[i].name, "Content-Length"))
    ensures |Others(hs)| < 32
  {
    OthersAre(hs);
    if exists i | 0 <= i < |hs| :: SameName(hs[i].name, "Content-Length") {
      var i :| 0 <= i < |hs| && SameName(hs[i].name, "Content-Length");
      assert Others(hs) == hs[..i] + hs[i + 1..];
    }
  }

  lemma SentHeadersGood(r: Request)
    requires Printable(r)
    ensures PlainHeaders(SentHeaders(r)) && Distinct(SentHeaders(r)) && |SentHeaders(r)| <= MAX_HEADERS
    ensures DeclaredLength(SentHeaders(r)) == |r.body|
  {
    OthersKeep(r.headers);
    FewOthers(r.headers);
    DecIsPlain(|r.body|);
    var hs := SentHeaders(r);
    forall i, j | 0 <= i < j < |hs|
      ensures !SameName(hs[i].name, hs[j].name)
    {
      assert hs[j] == Others(r.headers)[j - 1];
      if i > 0 { assert hs[i] == Others(r.headers)[i - 1]; }
    }
    DeclaredIs(hs, 0, |r.body|);
  }

  /** Three words are cut apart at the two spaces between them. */
  lemma WordsReads(a: string, b: string, c: string)
    requires Without(a, ' ') && Without(b, ' ')
    ensures var l := a + " " + b + " " + c;
            && Find(l, ' ') == |a| && l[..|a|] == a && l[|a| + 1..] == b + " " + c
    ensures Find(b + " " + c, ' ') == |b| && (b + " " + c)[..|b|] == b && (b + " " + c)[|b| + 1..] == c
  {
    assert a + " " + b + " " + c == a + " " + (b + " " + c);
    FindSep(a, ' ', b + " " + c);
    FindSep(b, ' ', c);
  }

  lemma RequestLinePlain(m: Method, path: string)
    requires PlainPath(path)
    ensures PlainLine(Name(m) + " " + path + " " + VERSION)
  {
    NameRoundTrip(m);
    WordsPlain(Name(m), path, VERSION);
  }

  lemma WordsPlain(a: string, b: string, c: string)
    requires Without(a, '\n') && Without(b, '\n') && Without(c, '\n') && (c != "" ==> c[|c| - 1] != '\r')
    ensures PlainLine(a + " " + b + " " + c)
  {
    var l := a + " " + b + " " + c;
    WithoutConcat(a, " ", '\n');
    WithoutConcat(a + " ", b, '\n');
    WithoutConcat(a + " " + b, " ", '\n');
    WithoutConcat(a + " " + b + " ", c, '\n');
    assert c == "" ==> l[|l| - 1] == ' ';
    assert c != "" ==> l[|l| - 1] == c[|c| - 1];
  }

  lemma RequestLineReads(m: Method, path: string)
    requires Without(path, ' ')
    ensures ReadRequestLine(Name(m) + " " + path + " " + VERSION) == Accepted((m, path))
  {
    NameRoundTrip(m);
    WordsReads(Name(m), path, VERSION);
  }

  lemma ParseRequestIs(buf: string, l: string, end: nat, m: Method, path: string, rest: string)
    requires FirstLine(buf) == Line(l, end) && buf[end + 1..] == rest
    requires l == Name(m) + " " + path + " " + VERSION && Without(path, ' ')
    ensures ParseRequest(buf) == Accepted(Request(m, CStr(path), HeadersOf(rest), BodyOf(rest)))
  {
    RequestLineReads(m, path);
    AcceptedFrom(buf, l, end, m, path, rest);
  }

  lemma AcceptedFrom(buf: string, l: string, end: nat, m: Method, path: string, rest: string)
    requires FirstLine(buf) == Line(l, end) && buf[end + 1..] == rest && ReadRequestLine(l) == Accepted((m, path))
    ensures ParseRequest(buf) == Accepted(Request(m, CStr(path), HeadersOf(rest), BodyOf(rest)))
  {
  }

  /** The headers a reader gets: the printed length, then the request's own in order, but for
      its own length. */
  ghost predicate PassedOn(hs: seq<Header>, r: Request) {
    && hs != [] && hs[0] == Header("Content-Length", Dec(|r.body|))
    && ((forall i | 0 <= i < |r.headers| :: !SameName(r.headers[i].name, "Content-Length")) ==> hs[1..] == r.headers)
    && (forall i | 0 <= i < |r.headers| && SameName(r.headers[i].name, "Content-Length") ::
          hs[1..] == r.headers[..i] + r.headers[i + 1..])
  }

  /** The request itself comes back, with those headers. */
  ghost predicate ReadsBack(r: Request, parsed: Parsed<Request>) {
    && parsed.Accepted? && PassedOn(parsed.message.headers, r)
    && parsed.message == r.(headers := parsed.message.headers)
  }

  /** Printing a request and parsing it, whatever bytes follow, gives the same method,
      path and body, and the headers in order behind the printed Content-Length. */
  lemma RequestRoundTrip(r: Request, extra: string)
    requires Printable(r)
    ensures ReadsBack(r, ParseRequest(PrintRequest(r) + extra))
  {
    RequestReread(r, extra);
    OthersAre(r.headers);
  }

  lemma RequestReread(r: Request, extra: string)
    requires Printable(r)
    ensures ParseRequest(PrintRequest(r) + extra) == Accepted(r.(headers := SentHeaders(r)))
  {
    var hs := SentHeaders(r);
    PrintRequestIs(r, extra);
    SentHeadersGood(r);
    LineParsed(r.verb, r.path, Block(HeaderLines(hs)) + BLANK + (r.body + extra));
    HeadersOfPrinted(hs, r.body + extra);
    BodyOfPrinted(hs, r.body, extra);
  }

  lemma LineParsed(m: Method, path: string, rest: string)
    requires PlainPath(path)
    ensures ParseRequest(Name(m) + " " + path + " " + VERSION + CRLF + rest)
         == Accepted(Request(m, path, HeadersOf(rest), BodyOf(rest)))
  {
    var l := Name(m) + " " + path + " " + VERSION;
    RequestLinePlain(m, path);
    FirstLinePrinted(l, rest);
    ParseRequestIs(l + CRLF + rest, l, |l| + 1, m, path, rest);
  }

  lemma PrintRequestIs(r: Request, extra: string)
    ensures PrintRequest(r) + extra
         == RequestLine(r) + CRLF + (Block(HeaderLines(SentHeaders(r))) + BLANK + (r.body + extra))
  {
    LineHead(RequestLine(r), SentHeaders(r), r.body + extra);
    assert PrintRequest(r) + extra == RequestHead(r) + (r.body + extra);
  }

  // ---------- responses ----------

  predicate Reserved(name: string) {
    SameName(name, "Date") || SameName(name, "Server") || SameName(name, CONTENT_LENGTH)
  }

  /** Responses whose parts are free of the delimiters around them. */
  ghost predicate Sendable(r: Response, date: string) {
    && INT_MIN <= r.code <= INT_MAX
    && Without(r.reason, '\n') && Without(r.reason, '\0') && (r.reason != "" ==> r.reason[|r.reason| - 1] != '\r')
    && PlainHeader(Header("Date", date))
    && PlainHeaders(r.headers) && Distinct(r.headers)
    && (forall i | 0 <= i < |r.headers| :: !Reserved(r.headers[i].name))
    && |r.headers| + (if Untyped(r.headers) then 1 else 0) <= 29
  }

  predicate Untyped(hs: seq<Header>) {
    forall i | 0 <= i < |hs| :: !SameName(hs[i].name, "Content-Type")
  }

  /** Adding the default content type keeps the headers in order. */
  lemma TypedGood(hs: seq<Header>)
    requires PlainHeaders(hs) && Distinct(hs) && |hs| + (if Untyped(hs) then 1 else 0) <= 29
    requires forall i | 0 <= i < |hs| :: !Reserved(hs[i].name)
    ensures PlainHeaders(Typed(hs)) && Distinct(Typed(hs)) && |Typed(hs)| <= 29
    ensures forall i | 0 <= i < |Typed(hs)| :: !Reserved(Typed(hs)[i].name)
  {
    var k := Place(hs, CONTENT_TYPE);
    if k == |hs| {
      DefaultTypeGood();
      var h := Header(CONTENT_TYPE, "text/plain");
      assert Typed(hs) == if |hs| < MAX_HEADERS then hs + [h] else hs;
    }
  }

  lemma DefaultTypeGood()
    ensures PlainHeader(Header(CONTENT_TYPE, "text/plain")) && !Reserved(CONTENT_TYPE)
  {
  }

  lemma StampedGood(r: Response, date: string, length: nat)
    requires Sendable(r, date) && length <= ULONG_MAX
    ensures var hs := StampedHeaders(r, date, length);
            && hs != [] && PlainHeaders(hs) && Distinct(hs) && |hs| <= MAX_HEADERS && DeclaredLength(hs) == length
  {
    var hs, own := StampedHeaders(r, date, length), Typed(r.headers);
    TypedGood(r.headers);
    DecIsPlain(length);
    assert PlainHeader(hs[0]) && PlainHeader(hs[1]) && PlainHeader(hs[2]);
    forall i, j | 0 <= i < j < |hs|
      ensures !SameName(hs[i].name, hs[j].name)
    {
      if j >= 3 {
        assert hs[j] == own[j - 3] && !Reserved(own[j - 3].name);
        if i >= 3 { assert hs[i] == own[i - 3]; }
      }
    }
    DeclaredIs(hs, 2, length);
  }

  function Pow10(k: nat): nat {
    if k == 0 then 1 else 10 * Pow10(k - 1)
  }

  lemma {:induction false} DecShort(n: nat, k: nat)
    requires k > 0 && n < Pow10(k)
    ensures |Dec(n)| <= k
  {
    if n >= 10 { DecShort(n / 10, k - 1); }
  }

  /** A code that fits an int is printed in fewer than 16 characters and read back. */
  lemma CodeReads(code: int)
    requires INT_MIN <= code <= INT_MAX
    ensures |Itoa(code)| < 16 && Without(Itoa(code), ' ') && Without(Itoa(code), '\n') && Without(Itoa(code), '\0')
    ensures Atoi(Itoa(code)) == code
  {
    var n := if code < 0 then 0 - code else code;
    DecIsShort(n);
    DecIsWord(n);
    LeadingDec(n, "");
    NothingFollows(Dec(n));
    if code < 0 {
      WithoutConcat("-", Dec(n), ' ');
      WithoutConcat("-", Dec(n), '\n');
      WithoutConcat("-", Dec(n), '\0');
      SignReads(Dec(n));
    } else {
      SkipInIs(Dec(n), SPACES, 0);
    }
  }

  lemma DecIsWord(n: nat)
    ensures Without(Dec(n), ' ') && Without(Dec(n), '\n') && Without(Dec(n), '\0')
    ensures Dec(n)[0] !in SPACES && Dec(n)[0] !in {'-', '+'}
  {
    var d := Dec(n);
    assert forall i | 0 <= i < |d| :: IsDigit(d[i]);
  }

  lemma SignReads(d: string)
    ensures Atoi("-" + d) == 0 - Leading(d)
  {
    SkipInIs("-" + d, SPACES, 0);
    assert ("-" + d)[1..] == d;
  }

  lemma DecIsShort(n: nat)
    requires n <= INT_MAX + 1
    ensures |Dec(n)| <= 10
  {
    assert Pow10(5) == 100000;
    assert Pow10(10) == 100000 * 100000 by { assert Pow10(10) == 100000 * Pow10(5); }
    DecShort(n, 10);
  }

  lemma VersionIsWord()
    ensures Without(VERSION, ' ') && Without(VERSION, '\n')
  {
  }

  lemma StatusLinePlain(code: int, reason: string)
    requires INT_MIN <= code <= INT_MAX && Without(reason, '\n') && (reason != "" ==> reason[|reason| - 1] != '\r')
    ensures PlainLine(VERSION + " " + Itoa(code) + " " + reason)
  {
    VersionIsWord();
    CodeReads(code);
    WordsPlain(VERSION, Itoa(code), reason);
  }

  lemma StatusLineReads(code: int, reason: string)
    requires INT_MIN <= code <= INT_MAX && Without(reason, '\0')
    ensures ReadStatusLine(VERSION + " " + Itoa(code) + " " + reason) == Accepted((code, reason))
  {
    VersionIsWord();
    CodeReads(code);
    WordsReads(VERSION, Itoa(code), reason);
  }

  lemma ParseResponseIs(buf: string, l: string, code: int, reason: string, rest: string)
    requires FirstLine(buf) == Line(l, |l| + 1) && buf[|l| + 2..] == rest
    requires l == VERSION + " " + Itoa(code) + " " + reason && INT_MIN <= code <= INT_MAX
    requires Without(reason, '\0')
    ensures ParseResponse(buf) == Accepted(Response(code, reason, HeadersOf(rest), BodyOf(rest)))
  {
    StatusLineReads(code, reason);
  }

  lemma PrintResponseIs(r: Response, date: string, length: nat, extra: string)
    ensures PrintResponse(r, date, length) + extra
         == StatusLine(r) + CRLF + (Block(HeaderLines(StampedHeaders(r, date, length))) + BLANK + (r.body + extra))
  {
    var l, hs := StatusLine(r), StampedHeaders(r, date, length);
    LineHead(l, hs, r.body + extra);
    var head := Lines([l] + HeaderLines(hs)) + CRLF;
    assert head + r.body + extra == head + (r.body + extra);
  }

  /** A printed response, cut at the end of its head. */
  lemma ParsePrinted(code: int, reason: string, hs: seq<Header>, tail: string)
    requires INT_MIN <= code <= INT_MAX
    requires Without(reason, '\n') && Without(reason, '\0') && (reason != "" ==> reason[|reason| - 1] != '\r')
    requires hs != [] && PlainHeaders(hs) && Distinct(hs) && |hs| <= MAX_HEADERS
    ensures ParseResponse(VERSION + " " + Itoa(code) + " " + reason + CRLF + (Block(HeaderLines(hs)) + BLANK + tail))
         == Accepted(Response(code, reason, hs, BodyOf(Block(HeaderLines(hs)) + BLANK + tail)))
  {
    var l, rest := VERSION + " " + Itoa(code) + " " + reason, Block(HeaderLines(hs)) + BLANK + tail;
    StatusLinePlain(code, reason);
    FirstLinePrinted(l, rest);
    ParseResponseIs(l + CRLF + rest, l, code, reason, rest);
    HeadersOfPrinted(hs, tail);
  }

  /** The headers a reader gets: date, server and length, then the response's own in order,
      and a content type if it has none of its own. */
  predicate Stamped(hs: seq<Header>, r: Response, date: string, length: nat) {
    var n := |r.headers|;
    && |hs| == 3 + n + (if Untyped(r.headers) then 1 else 0)
    && hs[0] == Header("Date", date) && hs[1] == Header("Server", "Foxtails")
    && hs[2] == Header("Content-Length", Dec(length))
    && hs[3..3 + n] == r.headers
    && (Untyped(r.headers) ==> hs[3 + n] == Header("Content-Type", "text/plain"))
  }

  lemma StampedAre(r: Response, date: string, length: nat)
    requires |r.headers| < 32
    ensures Stamped(StampedHeaders(r, date, length), r, date, length)
  {
    var k := Place(r.headers, CONTENT_TYPE);
    assert k < |r.headers| ==> !Untyped(r.headers);
    var h := Header("Content-Type", "text/plain");
    assert Typed(r.headers) == if Untyped(r.headers) then r.headers + [h] else r.headers;
  }

  /** The response itself comes back, with those headers. */
  predicate AnswersBack(r: Response, date: string, length: nat, parsed: Parsed<Response>) {
    && parsed.Accepted? && Stamped(parsed.message.headers, r, date, length)
    && parsed.message == r.(headers := parsed.message.headers)
  }

  /** Printing a response and parsing it, whatever bytes follow, recovers code, reason and
      body, and the headers behind Date, Server and Content-Length. */
  lemma ResponseRoundTrip(r: Response, date: string, extra: string)
    requires Sendable(r, date) && |r.body| <= ULONG_MAX
    ensures AnswersBack(r, date, |r.body|, ParseResponse(PrintResponse(r, date, |r.body|) + extra))
  {
    ResponseReread(r, date, extra);
    StampedAre(r, date, |r.body|);
  }

  lemma ResponseReread(r: Response, date: string, extra: string)
    requires Sendable(r, date) && |r.body| <= ULONG_MAX
    ensures ParseResponse(PrintResponse(r, date, |r.body|) + extra)
         == Accepted(r.(headers := StampedHeaders(r, date, |r.body|)))
  {
    var hs := StampedHeaders(r, date, |r.body|);
    PrintResponseIs(r, date, |r.body|, extra);
    StampedGood(r, date, |r.body|);
    ParsePrinted(r.code, r.reason, hs, r.body + extra);
    BodyOfPrinted(hs, r.body, extra);
  }

  /** A response to HEAD announces any length, has no body, and is read back without one. */
  lemma HeadResponseRoundTrip(r: Response, date: string, length: nat)
    requires Sendable(r, date) && r.body == "" && length <= ULONG_MAX
    ensures AnswersBack(r, date, length, ParseResponse(PrintResponse(r, date, length)))
  {
    var hs := StampedHeaders(r, date, length);
    StampedAre(r, date, length);
    PrintResponseIs(r, date, length, "");
    NothingFollows(PrintResponse(r, date, length));
    NothingFollows(r.body);
    StampedGood(r, date, length);
    ParsePrinted(r.code, r.reason, hs, "");
    BodyOfHeadOnly(hs);
  }

  lemma NothingFollows(s: string)
    ensures s + "" == s
  {
  }
}
