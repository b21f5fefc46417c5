/** Exactly which responses the parser accepts, what it makes of them, and why it refuses the
    others. */
module HttpResponseGrammar {
  import opened Options
  import opened CStrings
  import opened HttpHeaders
  import opened HttpMessages
  import opened HttpRoundTrip
  import opened HttpGrammar

  /** buf is a status line with the given code word and reason, ended by LF or CRLF, followed
      by rest. */
  ghost predicate IsResponse(buf: string, word: string, reason: string, rest: string) {
    && Without(word, ' ') && Without(word, '\n') && Without(reason, '\n')
    && (|| (buf == "HTTP/1.1" + " " + word + " " + reason + "\n" + rest && !EndsInCr(reason))
        || buf == "HTTP/1.1" + " " + word + " " + reason + "\r\n" + rest)
  }

  predicate EndsInCr(s: string) {
    s != "" && s[|s| - 1] == '\r'
  }

  /** The number a code word spells; of a long word only the first fifteen characters count. */
  function CodeOf(word: string): int {
    Atoi(CStr(if |word| < 16 then word else word[..15]))
  }

  // ---------- exactly these responses are accepted ----------

  lemma StatusAccepted(word: string, reason: string)
    requires Without(word, ' ')
    ensures ReadStatusLine("HTTP/1.1" + " " + word + " " + reason) == Accepted((CodeOf(word), CStr(reason)))
  {
    VersionIsWord();
    StatusReads(VERSION, word, reason);
  }

  lemma StatusReads(version: string, word: string, reason: string)
    requires version == VERSION && Without(version, ' ') && Without(word, ' ')
    ensures ReadStatusLine(version + " " + word + " " + reason) == Accepted((CodeOf(word), CStr(reason)))
  {
    WordsReads(version, word, reason);
    FifteenOf(word, reason);
  }

  lemma FifteenOf(word: string, reason: string)
    ensures |word| >= 15 ==> (word + " " + reason)[..15] == word[..15]
  {
  }

  lemma ResponseAccepted(buf: string, word: string, reason: string, rest: string)
    requires IsResponse(buf, word, reason, rest)
    ensures ParseResponse(buf) == Accepted(Response(CodeOf(word), CStr(reason), HeadersOf(rest), BodyOf(rest)))
  {
    var line := "HTTP/1.1" + " " + word + " " + reason;
    StatusWithoutLf(word, reason);
    FirstLineIs(line, rest);
    StatusAccepted(word, reason);
    assert line[|line| - 1] == if reason == "" then ' ' else reason[|reason| - 1];
  }

  lemma StatusWithoutLf(word: string, reason: string)
    requires Without(word, '\n') && Without(reason, '\n')
    ensures Without("HTTP/1.1" + " " + word + " " + reason, '\n')
  {
    WithoutConcat("HTTP/1.1", " ", '\n');
    WithoutConcat("HTTP/1.1" + " ", word, '\n');
    WithoutConcat("HTTP/1.1" + " " + word, " ", '\n');
    WithoutConcat("HTTP/1.1" + " " + word + " ", reason, '\n');
  }

  /** An accepted status line has the version, a code word and a reason. */
  lemma AcceptedStatus(line: string) returns (word: string, reason: string)
    requires ReadStatusLine(line).Accepted? && Without(line, '\n')
    ensures line == "HTTP/1.1" + " " + word + " " + reason
    ensures Without(word, ' ') && Without(word, '\n') && Without(reason, '\n')
  {
    var version;
    version, word, reason := CutTwice(line);
  }

  /** A line with two spaces, cut at the first two. */
  lemma CutTwice(line: string) returns (a: string, b: string, c: string)
    requires var sp := Find(line, ' '); sp < |line| && Find(line[sp + 1..], ' ') < |line[sp + 1..]|
    ensures line == a + " " + b + " " + c && a == line[..Find(line, ' ')]
    ensures Without(b, ' ') && (Without(line, '\n') ==> Without(b, '\n') && Without(c, '\n'))
  {
    var sp := Find(line, ' ');
    var rest := line[sp + 1..];
    var sp2 := Find(rest, ' ');
    a, b, c := line[..sp], rest[..sp2], rest[sp2 + 1..];
    SplitAt(line, ' ', sp);
    SplitAt(rest, ' ', sp2);
    ThreeWords(a, b, c);
  }

  lemma AcceptedIsResponse(buf: string)
    requires ParseResponse(buf).Accepted?
    ensures exists word: string, reason: string, rest: string :: IsResponse(buf, word, reason, rest)
  {
    var l := FirstLine(buf);
    FirstLineSplits(buf);
    var word, reason := AcceptedStatus(l.text);
    var rest := buf[l.end + 1..];
    EndOfLine(buf);
    assert SameEnd(l.text, reason);
    assert IsResponse(buf, word, reason, rest);
  }

  predicate SameEnd(line: string, reason: string) {
    reason != "" ==> line != "" && line[|line| - 1] == reason[|reason| - 1]
  }

  /** A line ended by LF alone does not end in CR. */
  lemma EndOfLine(buf: string)
    requires FirstLine(buf).Line?
    ensures var l := FirstLine(buf);
            || (buf == l.text + "\n" + buf[l.end + 1..] && !EndsInCr(l.text))
            || buf == l.text + "\r\n" + buf[l.end + 1..]
  {
    var l := FirstLine(buf);
    FirstLineSplits(buf);
    if buf == l.text + "\n" + buf[l.end + 1..] {
      assert buf[..l.end] == l.text;
    }
  }

  /** A buffer is accepted exactly if it is a status line of this version and something behind
      it, and then the response is that code, that reason up to a NUL, and what the rest
      holds. */
  lemma AcceptedIffResponse(buf: string)
    ensures ParseResponse(buf).Accepted? <==>
              exists word: string, reason: string, rest: string :: IsResponse(buf, word, reason, rest)
    ensures forall word: string, reason: string, rest: string :: IsResponse(buf, word, reason, rest) ==>
              ParseResponse(buf) == Accepted(Response(CodeOf(word), CStr(reason), HeadersOf(rest), BodyOf(rest)))
  {
    if ParseResponse(buf).Accepted? {
      AcceptedIsResponse(buf);
    }
    forall word: string, reason: string, rest: string | IsResponse(buf, word, reason, rest)
      ensures ParseResponse(buf) == Accepted(Response(CodeOf(word), CStr(reason), HeadersOf(rest), BodyOf(rest)))
    {
      ResponseAccepted(buf, word, reason, rest);
    }
  }

  // ---------- why the others are refused ----------

  /** The line has one word, or the version and one more. */
  ghost predicate TooShort(line: string) {
    Without(line, ' ') || exists word: string :: line == "HTTP/1.1" + " " + word && Without(word, ' ')
  }

  /** The line has a first word, which is not the version. */
  ghost predicate OtherVersion(line: string) {
    !Without(line, ' ') && !StartsWith(line, "HTTP/1.1")
  }

  lemma ShortRefused(line: string)
    ensures TooShort(line) ==> ReadStatusLine(line) == Refused(502)
  {
    VersionIsWord();
    if Without(line, ' ') {
      FindIs(line, ' ', |line|);
    }
    forall word: string | line == "HTTP/1.1" + " " + word && Without(word, ' ')
      ensures ReadStatusLine(line) == Refused(502)
    {
      FindSep(VERSION, ' ', word);
      FindIs(word, ' ', |word|);
    }
  }

  lemma OtherRefused(line: string)
    ensures OtherVersion(line) ==> ReadStatusLine(line) == Refused(505)
  {
    VersionIsWord();
    StartsWithWord(line, VERSION);
  }

  /** A refused line is refused for the reason it has. */
  lemma RefusedStatus(line: string)
    requires ReadStatusLine(line).Refused?
    ensures match ReadStatusLine(line).code
            case 502 => TooShort(line)
            case 505 => OtherVersion(line)
            case _ => false
  {
    VersionIsWord();
    StartsWithWord(line, VERSION);
    var sp := Find(line, ' ');
    if sp < |line| {
      SplitAt(line, ' ', sp);
    }
  }

  /** A response that is not accepted is refused as a bad gateway exactly if it has no line
      end or too few words, and as another version exactly if its first word is not this
      one. */
  lemma ResponseRefusalsExact(buf: string)
    ensures Without(buf, '\n') ==> ParseResponse(buf) == Refused(502)
    ensures !Without(buf, '\n') ==>
              && FirstLine(buf).Line?
              && var line := FirstLine(buf).text;
                 && (ParseResponse(buf) == Refused(502) <==> TooShort(line))
                 && (ParseResponse(buf) == Refused(505) <==> OtherVersion(line))
                 && (ParseResponse(buf).Refused? ==> ParseResponse(buf).code in {502, 505})
  {
    assert Find(buf, '\n') == |buf| <==> Without(buf, '\n');
    var l := FirstLine(buf);
    if l.Line? {
      ShortRefused(l.text);
      OtherRefused(l.text);
      if ReadStatusLine(l.text).Refused? {
        RefusedStatus(l.text);
      }
    }
  }
}
