/** What the parsers read of any message, printed by this server or not: header lines, header
    blocks, declared lengths and bodies. */
module HttpBlocks {
  import opened Options
  import opened CStrings
  import opened HttpHeaders
  import opened HttpMessages
  import opened HttpRoundTrip
  import opened HttpGrammar

  // ---------- header lines ----------

  /** A name, a colon, any number of spaces and a value, with or without CR. */
  lemma LineHeaderIs(name: string, blanks: string, value: string)
    requires Without(name, ':') && forall i | 0 <= i < |blanks| :: blanks[i] == ' '
    requires value != "" ==> value[0] != ' ' && value[|value| - 1] != '\r'
    ensures LineHeader(name + ":" + blanks + value) == Some(Header(name, value))
    ensures LineHeader(name + ":" + blanks + value + "\r") == Some(Header(name, value))
  {
    var rest := blanks + value;
    assert name + ":" + rest == name + ":" + blanks + value;
    SkipInIs(rest, {' '}, |blanks|);
    assert rest[|blanks|..] == value;
    assert rest != "" ==> rest[|rest| - 1] == if value != "" then value[|value| - 1] else ' ';
    HeaderSplits(name, rest);
  }

  lemma HeaderSplits(name: string, rest: string)
    requires Without(name, ':') && (rest != "" ==> rest[|rest| - 1] != '\r')
    ensures var h := Header(name, rest[SkipIn(rest, {' '})..]);
            LineHeader(name + ":" + rest) == Some(h) && LineHeader(name + ":" + rest + "\r") == Some(h)
  {
    var line := name + ":" + rest;
    FindSep(name, ':', rest);
    assert line[|line| - 1] == if rest != "" then rest[|rest| - 1] else ':';
    assert (line + "\r")[..|line|] == line;
  }

  /** A line without a colon is no header. */
  lemma NoColonNoHeader(line: string)
    requires Without(line, ':')
    ensures LineHeader(line) == None
  {
    FindIs(Chomp(line), ':', |Chomp(line)|);
  }

  /** Such a line leaves the table as it is. */
  lemma NoColonSkipped(t: seq<Header>, line: string)
    requires Without(line, ':')
    ensures SetLine(t, line) == t
  {
    NoColonNoHeader(line);
  }

  // ---------- header blocks ----------

  /** The headers are those of the lines before the first blank line, up to a NUL. */
  lemma HeadersAre(block: string, blank: string, tail: string)
    requires blank in {"\r\n\r\n", "\n\n"}
    requires forall j | 0 <= j < |block| :: !BlankAt(block + blank + tail, j)
    ensures HeadersOf(block + blank + tail) == Table(Tokens(CStr(block), {'\n'}))
  {
    var rest := block + blank + tail;
    FirstBlankLine(block, blank, tail);
    assert rest[..|block|] == block;
  }

  lemma FirstBlankLine(block: string, blank: string, tail: string)
    requires blank in {"\r\n\r\n", "\n\n"}
    requires forall j | 0 <= j < |block| :: !BlankAt(block + blank + tail, j)
    ensures BlockEnd(block + blank + tail) == (|block|, Some(|block + blank|))
  {
    var rest := block + blank + tail;
    assert rest[|block|..|block| + |blank|] == blank;
    assert HasAt(rest, |block|, blank);
    if blank == "\n\n" {
      CharAt(rest, |block|, "\r\n\r\n", 0);
    }
    BlockEndIsFirst(rest);
  }

  /** Without a blank line everything is header block, and there is no body. */
  lemma NoBlankLine(rest: string)
    requires forall j | 0 <= j <= |rest| :: !BlankAt(rest, j)
    ensures HeadersOf(rest) == Table(Tokens(CStr(rest), {'\n'})) && BodyOf(rest) == ""
  {
    BlockEndIsFirst(rest);
    assert rest[..|rest|] == rest;
  }

  // ---------- lengths and bodies ----------

  /** The declared length is the number that the first header of that name spells, in any case
      of letters, or zero. */
  lemma DeclaredLengthIs(hs: seq<Header>)
    ensures (forall i | 0 <= i < |hs| :: !SameName(hs[i].name, "Content-Length")) ==> DeclaredLength(hs) == 0
    ensures forall i | 0 <= i < |hs| && SameName(hs[i].name, "Content-Length")
                       && (forall j | 0 <= j < i :: !SameName(hs[j].name, "Content-Length")) ::
              DeclaredLength(hs) == StrToUL(hs[i].value)
  {
    forall i | 0 <= i < |hs| && SameName(hs[i].name, "Content-Length")
               && (forall j | 0 <= j < i :: !SameName(hs[j].name, "Content-Length"))
      ensures DeclaredLength(hs) == StrToUL(hs[i].value)
    {
      PlaceIs(hs, "Content-Length", i);
    }
    if forall i | 0 <= i < |hs| :: !SameName(hs[i].name, "Content-Length") {
      PlaceIs(hs, "Content-Length", |hs|);
    }
  }

  /** The body is what stands behind the blank line: as much of it as was declared, or all of
      it if more was declared than is there. */
  lemma BodyAre(block: string, blank: string, tail: string)
    requires blank in {"\r\n\r\n", "\n\n"}
    requires forall j | 0 <= j < |block| :: !BlankAt(block + blank + tail, j)
    ensures var n := DeclaredLength(HeadersOf(block + blank + tail));
            BodyOf(block + blank + tail) == if n < |tail| then tail[..n] else tail
  {
    FirstBlankLine(block, blank, tail);
    BodyFrom(block + blank + tail, |block + blank|, tail);
  }
}
