/** Which buffers the request parser accepts, and why it refuses the others. */
module HttpGrammar {
  import opened Options
  import opened CStrings
  import opened HttpMethods
  import opened HttpHeaders
  import opened HttpMessages
  import opened HttpRoundTrip

  predicate NoSpace(s: string) {
    Without(s, ' ') && Without(s, '\n')
  }

  /** buf is a request line for m and target, ended by LF or CRLF, followed by rest. */
  ghost predicate IsRequest(buf: string, m: Method, target: string, rest: string) {
    && NoSpace(target)
    && (|| buf == Name(m) + " " + target + " " + "HTTP/1.1" + "\n" + rest
        || buf == Name(m) + " " + target + " " + "HTTP/1.1" + "\r\n" + rest)
  }

  // ---------- the first line ----------

  /** The first line is what stands before the first line end. */
  lemma FirstLineIs(line: string, rest: string)
    requires Without(line, '\n')
    ensures (line == "" || line[|line| - 1] != '\r') ==>
              FirstLine(line + "\n" + rest) == Line(line, |line|) && (line + "\n" + rest)[|line| + 1..] == rest
    ensures FirstLine(line + "\r\n" + rest) == Line(line, |line| + 1) && (line + "\r\n" + rest)[|line| + 2..] == rest
  {
    FindSep(line, '\n', rest);
    WithoutConcat(line, "\r", '\n');
    FindSep(line + "\r", '\n', rest);
    assert line + "\r\n" + rest == (line + "\r") + "\n" + rest;
    assert (line + "\r")[..|line|] == line;
  }

  lemma FirstLineSplits(buf: string)
    requires FirstLine(buf).Line?
    ensures var l := FirstLine(buf);
            && Without(l.text, '\n')
            && (buf == l.text + "\n" + buf[l.end + 1..] || buf == l.text + "\r\n" + buf[l.end + 1..])
  {
    var l := FirstLine(buf);
    assert buf == buf[..l.end] + "\n" + buf[l.end + 1..];
    var raw := buf[..l.end];
    if raw != "" && raw[|raw| - 1] == '\r' {
      assert raw == l.text + "\r";
      assert l.text + "\r" + "\n" + buf[l.end + 1..] == l.text + "\r\n" + buf[l.end + 1..];
    }
  }

  // ---------- the end of the head ----------

  predicate BlankAt(rest: string, j: nat) {
    HasAt(rest, j, BLANK) || HasAt(rest, j, "\n\n")
  }

  /** The header block ends at the first blank line of either style, CRLF CRLF winning a tie,
      and the body starts behind that line; without one, all is header block. */
  lemma BlockEndIsFirst(rest: string)
    ensures var (end, start) := BlockEnd(rest);
            && (forall j | 0 <= j < end :: !BlankAt(rest, j))
            && (start.None? ==> end == |rest| && !BlankAt(rest, end))
            && (start.Some? ==> && BlankAt(rest, end)
                                && start.value == if HasAt(rest, end, BLANK) then end + 4 else end + 2)
  {
  }

  // ---------- exactly these requests are accepted ----------

  lemma LineAccepted(buf: string, m: Method, target: string, rest: string)
    requires IsRequest(buf, m, target, rest)
    ensures ParseRequest(buf) == Accepted(Request(m, CStr(target), HeadersOf(rest), BodyOf(rest)))
  {
    NameRoundTrip(m);
    VersionIsWord();
    var line := Name(m) + " " + target + " " + VERSION;
    WordsPlain(Name(m), target, VERSION);
    FirstLineIs(line, rest);
    if buf == line + "\n" + rest {
      ParseRequestIs(buf, line, |line|, m, target, rest);
    } else {
      ParseRequestIs(buf, line, |line| + 1, m, target, rest);
    }
  }

  lemma SplitAt(s: string, c: char, k: nat)
    requires k < |s| && s[k] == c
    ensures s == s[..k] + [c] + s[k + 1..]
  {
  }

  /** An accepted first line is three words. */
  lemma AcceptedWords(line: string, m: Method, target: string)
    requires ReadRequestLine(line) == Accepted((m, target)) && Without(line, '\n')
    ensures line == Name(m) + " " + target + " " + VERSION && NoSpace(target)
  {
    var sp := Find(line, ' ');
    var tail := line[sp + 1..];
    var sp2 := Find(tail, ' ');
    SplitAt(line, ' ', sp);
    SplitAt(tail, ' ', sp2);
    ThreeWords(Name(m), target, VERSION);
  }

  lemma ThreeWords(a: string, b: string, c: string)
    ensures a + " " + (b + " " + c) == a + " " + b + " " + c
  {
  }

  lemma AcceptedLine(buf: string)
    requires ParseRequest(buf).Accepted?
    ensures exists m: Method, target: string, rest: string :: IsRequest(buf, m, target, rest)
  {
    var l := FirstLine(buf);
    var start := ReadRequestLine(l.text).message;
    FirstLineSplits(buf);
    AcceptedWords(l.text, start.0, start.1);
    assert IsRequest(buf, start.0, start.1, buf[l.end + 1..]);
  }

  /** A buffer is accepted exactly if it is a request line and something behind it, and then
      the request is that method, that target up to a NUL, and what the rest holds. */
  lemma AcceptedIffRequest(buf: string)
    ensures ParseRequest(buf).Accepted? <==>
              exists m: Method, target: string, rest: string :: IsRequest(buf, m, target, rest)
    ensures forall m: Method, target: string, rest: string :: IsRequest(buf, m, target, rest) ==>
              ParseRequest(buf) == Accepted(Request(m, CStr(target), HeadersOf(rest), BodyOf(rest)))
  {
    if ParseRequest(buf).Accepted? {
      AcceptedLine(buf);
    }
    forall m: Method, target: string, rest: string | IsRequest(buf, m, target, rest)
      ensures ParseRequest(buf) == Accepted(Request(m, CStr(target), HeadersOf(rest), BodyOf(rest)))
    {
      LineAccepted(buf, m, target, rest);
    }
  }

  // ---------- why the others are refused ----------

  /** The first line starts with a word and a space. */
  ghost predicate StartsWith(line: string, word: string) {
    exists tail: string :: line == word + " " + tail
  }

  lemma StartsWithWord(line: string, word: string)
    requires Without(word, ' ')
    ensures StartsWith(line, word) <==> (Find(line, ' ') < |line| && line[..Find(line, ' ')] == word)
  {
    var k := Find(line, ' ');
    if k < |line| && line[..k] == word {
      SplitAt(line, ' ', k);
    }
    forall tail: string | line == word + " " + tail
      ensures Find(line, ' ') == |word| && line[..|word|] == word
    {
      FindSep(word, ' ', tail);
    }
  }

  /** The line is a method, a word and something else than the version. */
  ghost predicate WrongVersion(line: string) {
    exists m: Method, target: string, version: string ::
      line == Name(m) + " " + target + " " + version && Without(target, ' ') && version != "HTTP/1.1"
  }

  /** The line has one word, or a method and one more. */
  ghost predicate TooFewWords(line: string) {
    Without(line, ' ') || exists m: Method, target: string :: line == Name(m) + " " + target && Without(target, ' ')
  }

  /** The line has a first word, which is no method. */
  ghost predicate UnknownMethod(line: string) {
    !Without(line, ' ') && forall m: Method :: !StartsWith(line, Name(m))
  }

  lemma MethodFirst(line: string, m: Method, tail: string)
    requires line == Name(m) + " " + tail
    ensures Find(line, ' ') == |Name(m)| && FromName(line[..|Name(m)|]) == Some(m) && line[|Name(m)| + 1..] == tail
  {
    NameRoundTrip(m);
    FindSep(Name(m), ' ', tail);
  }

  lemma WordCountRefused(line: string)
    ensures WrongVersion(line) ==> ReadRequestLine(line) == Refused(505)
    ensures TooFewWords(line) ==> ReadRequestLine(line) == Refused(400)
  {
    forall m: Method, target: string, version: string
      | line == Name(m) + " " + target + " " + version && Without(target, ' ') && version != VERSION
      ensures ReadRequestLine(line) == Refused(505)
    {
      ThreeWords(Name(m), target, version);
      MethodFirst(line, m, target + " " + version);
      FindSep(target, ' ', version);
    }
    forall m: Method, target: string | line == Name(m) + " " + target && Without(target, ' ')
      ensures ReadRequestLine(line) == Refused(400)
    {
      MethodFirst(line, m, target);
      FindIs(target, ' ', |target|);
    }
    if Without(line, ' ') {
      FindIs(line, ' ', |line|);
    }
  }

  lemma UnknownMethodRefused(line: string)
    ensures UnknownMethod(line) ==> ReadRequestLine(line) == Refused(501)
  {
    var sp := Find(line, ' ');
    var m := FromName(line[..sp]);
    if sp < |line| && m.Some? {
      NameRoundTrip(m.value);
      StartsWithWord(line, Name(m.value));
    }
  }

  /** A refused line is refused for the reason it has. */
  lemma RefusedWords(line: string)
    requires ReadRequestLine(line).Refused?
    ensures match ReadRequestLine(line).code
            case 400 => TooFewWords(line)
            case 501 => UnknownMethod(line)
            case 505 => WrongVersion(line)
            case _ => false
  {
    var sp := Find(line, ' ');
    if sp < |line| {
      SplitAt(line, ' ', sp);
      var m, tail := FromName(line[..sp]), line[sp + 1..];
      if m.None? {
        forall x: Method
          ensures !StartsWith(line, Name(x))
        {
          NameRoundTrip(x);
          StartsWithWord(line, Name(x));
        }
      } else {
        var sp2 := Find(tail, ' ');
        if sp2 < |tail| {
          SplitAt(tail, ' ', sp2);
          ThreeWords(Name(m.value), tail[..sp2], tail[sp2 + 1..]);
          assert line == Name(m.value) + " " + tail[..sp2] + " " + tail[sp2 + 1..];
        } else {
          assert line == Name(m.value) + " " + tail && Without(tail, ' ');
        }
      }
    }
  }

  /** A request that is not accepted is refused for exactly one of four reasons, and the
      code tells which. */
  lemma RefusalsExact(buf: string)
    ensures ParseRequest(buf) == Refused(408) <==> Without(buf, '\n')
    ensures !Without(buf, '\n') ==>
              && FirstLine(buf).Line?
              && var line := FirstLine(buf).text;
                 && (ParseRequest(buf) == Refused(400) <==> TooFewWords(line))
                 && (ParseRequest(buf) == Refused(501) <==> UnknownMethod(line))
                 && (ParseRequest(buf) == Refused(505) <==> WrongVersion(line))
                 && (ParseRequest(buf).Refused? ==> ParseRequest(buf).code in {400, 501, 505})
  {
    assert Find(buf, '\n') == |buf| <==> Without(buf, '\n');
    var l := FirstLine(buf);
    if l.Line? {
      WordCountRefused(l.text);
      UnknownMethodRefused(l.text);
      if ReadRequestLine(l.text).Refused? {
        RefusedWords(l.text);
      }
    }
  }

  // ---------- what an accepted message can look like ----------

  lemma BodyIsPiece(rest: string) returns (i: nat)
    ensures i <= |rest| && HasAt(rest, i, BodyOf(rest)) && |BodyOf(rest)| <= DeclaredLength(HeadersOf(rest))
  {
    var start := BlockEnd(rest).1;
    i := if start.Some? then start.value else 0;
  }

  lemma HeadersShape(rest: string)
    ensures |HeadersOf(rest)| <= MAX_HEADERS && Distinct(HeadersOf(rest))
  {
    TableIsLastWins(Tokens(CStr(rest[..BlockEnd(rest).0]), NEWLINE));
  }

  lemma SuffixHas(buf: string, rest: string, i: nat, pat: string)
    requires |rest| <= |buf| && buf[|buf| - |rest|..] == rest && HasAt(rest, i, pat)
    ensures HasAt(buf, |buf| - |rest| + i, pat)
  {
    var front := buf[..|buf| - |rest|];
    assert buf == front + rest;
    HasAtShift(front, rest, |front| + i, pat);
  }

  lemma LineShape(buf: string, m: Method, target: string, rest: string)
    requires IsRequest(buf, m, target, rest)
    ensures |rest| <= |buf| && buf[|buf| - |rest|..] == rest
    ensures Without(CStr(target), '\0') && Without(CStr(target), ' ')
  {
  }

  lemma BodyShape(buf: string, rest: string)
    requires |rest| <= |buf| && buf[|buf| - |rest|..] == rest
    ensures |HeadersOf(rest)| <= MAX_HEADERS && Distinct(HeadersOf(rest))
    ensures |BodyOf(rest)| <= DeclaredLength(HeadersOf(rest)) && exists i: nat :: HasAt(buf, i, BodyOf(rest))
  {
    HeadersShape(rest);
    var i := BodyIsPiece(rest);
    SuffixHas(buf, rest, i, BodyOf(rest));
  }

  /** Every accepted request has one of the nine methods, at most 32 headers of different
      names, and a body that is a piece of the buffer no longer than was declared. */
  lemma AcceptedShape(buf: string)
    requires ParseRequest(buf).Accepted?
    ensures var r := ParseRequest(buf).message;
            && FromName(Name(r.verb)) == Some(r.verb) && Without(r.path, '\0') && Without(r.path, ' ')
            && |r.headers| <= 32 && Distinct(r.headers)
            && |r.body| <= DeclaredLength(r.headers)
            && exists i: nat :: HasAt(buf, i, r.body)
  {
    AcceptedLine(buf);
    var m: Method, target: string, rest: string :| IsRequest(buf, m, target, rest);
    LineAccepted(buf, m, target, rest);
    NameRoundTrip(m);
    LineShape(buf, m, target, rest);
    BodyShape(buf, rest);
  }
}
