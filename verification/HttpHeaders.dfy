/** The header table of an HTTP message. Names are compared ignoring ASCII case. */
module HttpHeaders {
  import opened Options
  import opened CStrings

  const MAX_HEADERS: nat := 32

  datatype Header = Header(name: string, value: string)

  /** The place of a name in the table, or its length. */
  function Place(t: seq<Header>, name: string): (k: nat)
    ensures k <= |t| && (k < |t| ==> SameName(t[k].name, name))
    ensures forall i | 0 <= i < k :: !SameName(t[i].name, name)
  {
    if t == [] || SameName(t[0].name, name) then 0 else 1 + Place(t[1..], name)
  }

  /** A known name gets the new value; a new one goes behind the others while there is room. */
  function Set(t: seq<Header>, h: Header): seq<Header> {
    var k := Place(t, h.name);
    if k < |t| then t[k := Header(t[k].name, h.value)]
    else if |t| < MAX_HEADERS then t + [h]
    else t
  }

  function Get(t: seq<Header>, name: string): Option<string> {
    var k := Place(t, name);
    if k < |t| then Some(t[k].value) else None
  }

  predicate Distinct(t: seq<Header>) {
    forall i, j | 0 <= i < j < |t| :: !SameName(t[i].name, t[j].name)
  }

  // ---------- header lines ----------

  function Chomp(line: string): string {
    if line != "" && line[|line| - 1] == '\r' then line[..|line| - 1] else line
  }

  /** The header on a line, if the line has a colon. */
  function LineHeader(line: string): Option<Header> {
    var l := Chomp(line);
    var colon := Find(l, ':');
    if colon == |l| then None
    else
      var rest := l[colon + 1..];
      Some(Header(l[..colon], rest[SkipIn(rest, {' '})..]))
  }

  function SetLine(t: seq<Header>, line: string): seq<Header> {
    var h := LineHeader(line);
    if h.Some? then Set(t, h.value) else t
  }

  /** The table after all lines of a header block. */
  function Table(lines: seq<string>): seq<Header> {
    if lines == [] then [] else SetLine(Table(lines[..|lines| - 1]), lines[|lines| - 1])
  }

  // ---------- what the table means ----------

  predicate Among(ns: seq<string>, name: string) {
    exists i | 0 <= i < |ns| :: SameName(ns[i], name)
  }

  /** The names of a block, each at its first occurrence. */
  function FirstNames(lines: seq<string>): seq<string> {
    if lines == [] then []
    else
      var ns, h := FirstNames(lines[..|lines| - 1]), LineHeader(lines[|lines| - 1]);
      if h.None? || Among(ns, h.value.name) then ns else ns + [h.value.name]
  }

  /** The value of a name at its last occurrence in a block. */
  function LastValue(lines: seq<string>, name: string): Option<string> {
    if lines == [] then None
    else
      var h := LineHeader(lines[|lines| - 1]);
      if h.Some? && SameName(h.value.name, name) then Some(h.value.value)
      else LastValue(lines[..|lines| - 1], name)
  }

  predicate DistinctNames(ns: seq<string>) {
    forall i, j | 0 <= i < j < |ns| :: !SameName(ns[i], ns[j])
  }

  lemma {:induction false} FirstNamesDistinct(lines: seq<string>)
    ensures DistinctNames(FirstNames(lines))
  {
    if lines != [] { FirstNamesDistinct(lines[..|lines| - 1]); }
  }

  /** The table holds the first names ns, up to its limit, with their last values. */
  ghost predicate Describes(t: seq<Header>, lines: seq<string>, ns: seq<string>) {
    && |t| == (if |ns| < 32 then |ns| else 32)
    && forall i | 0 <= i < |t| :: t[i].name == ns[i] && LastValue(lines, ns[i]) == Some(t[i].value)
  }

  /** One more line keeps the description. */
  lemma DescribesStep(t: seq<Header>, lines: seq<string>, line: string, ns: seq<string>, h: Header)
    requires Describes(t, lines, ns) && DistinctNames(ns) && LineHeader(line) == Some(h)
    ensures var ns' := if Among(ns, h.name) then ns else ns + [h.name];
            Describes(Set(t, h), lines + [line], ns')
  {
    assert (lines + [line])[..|lines|] == lines;
    var k, t' := Place(t, h.name), Set(t, h);
    var ns' := if Among(ns, h.name) then ns else ns + [h.name];
    assert k < |t| ==> SameName(ns[k], h.name);
    forall i | 0 <= i < |t'|
      ensures t'[i].name == ns'[i] && LastValue(lines + [line], ns'[i]) == Some(t'[i].value)
    {
      if i < |t| {
        assert t[i].name == ns[i];
        if SameName(h.name, ns[i]) {
          assert i == k;
        }
      }
    }
  }

  /** Parsing a header block is a last-wins fold: the table has no two equal names, holds
      the first names of the block in order, at most 32, and each with its last value. */
  lemma TableIsLastWins(lines: seq<string>)
    ensures Describes(Table(lines), lines, FirstNames(lines))
    ensures Distinct(Table(lines)) && |Table(lines)| <= MAX_HEADERS
  {
    FirstNamesDistinct(lines);
    TableDescribed(lines);
    DescribedDistinct(Table(lines), lines, FirstNames(lines));
  }

  lemma {:induction false} TableDescribed(lines: seq<string>)
    ensures Describes(Table(lines), lines, FirstNames(lines))
  {
    if lines != [] {
      var init, line := lines[..|lines| - 1], lines[|lines| - 1];
      TableDescribed(init);
      FirstNamesDistinct(init);
      OneMoreLine(init, line);
      assert lines == init + [line];
    }
  }

  lemma OneMoreLine(lines: seq<string>, line: string)
    requires Describes(Table(lines), lines, FirstNames(lines)) && DistinctNames(FirstNames(lines))
    ensures Describes(Table(lines + [line]), lines + [line], FirstNames(lines + [line]))
  {
    assert (lines + [line])[..|lines|] == lines;
    var h := LineHeader(line);
    if h.Some? {
      DescribesStep(Table(lines), lines, line, FirstNames(lines), h.value);
    }
  }

  lemma DescribedDistinct(t: seq<Header>, lines: seq<string>, ns: seq<string>)
    requires Describes(t, lines, ns) && DistinctNames(ns)
    ensures Distinct(t) && |t| <= MAX_HEADERS
  {
  }

  // ---------- the table as the code keeps it ----------

  class HeaderTable {
    const items: array<Header>
    var len: nat

    ghost predicate Valid()
      reads this
    {
      items.Length == MAX_HEADERS && len <= MAX_HEADERS
    }

    ghost function Contents(): seq<Header>
      requires Valid()
      reads this, items
    {
      items[..len]
    }

    constructor ()
      ensures Valid() && Contents() == [] && fresh(items)
    {
      items := new Header[MAX_HEADERS](_ => Header("", ""));
      len := 0;
    }

    /** The first entry with this name, or the length. */
    method Locate(name: string) returns (k: nat)
      requires Valid()
      ensures k == Place(Contents(), name)
    {
      k := 0;
      while k < len && !SameName(items[k].name, name)
        invariant k <= len
        invariant forall i | 0 <= i < k :: !SameName(items[i].name, name)
      {
        k := k + 1;
      }
      PlaceIs(Contents(), name, k);
    }

    method SetHeader(h: Header) returns (stored: bool)
      requires Valid()
      modifies this, items
      ensures Valid() && Contents() == Set(old(Contents()), h)
      ensures stored <==> Get(Contents(), h.name) == Some(h.value)
    {
      var k := Locate(h.name);
      ghost var t := Contents();
      if k < len {
        items[k] := Header(items[k].name, h.value);
        assert Contents() == t[k := Header(t[k].name, h.value)];
        PlaceIs(Contents(), h.name, k);
        return true;
      }
      if len >= MAX_HEADERS { return false; }
      items[len] := h;
      len := len + 1;
      assert Contents() == t + [h];
      PlaceIs(Contents(), h.name, k);
      return true;
    }

    method GetHeader(name: string) returns (r: Option<string>)
      requires Valid()
      ensures r == Get(Contents(), name)
    {
      var k := Locate(name);
      r := if k < len then Some(items[k].value) else None;
    }

    method SetOneLine(line: string)
      requires Valid()
      modifies this, items
      ensures Valid() && Contents() == SetLine(old(Contents()), line)
    {
      var h := LineHeader(line);
      if h.Some? {
        var stored := SetHeader(h.value);
      }
    }

    /** The strtok loop over a header block. */
    method ParseBlock(block: string)
      requires Valid() && Contents() == []
      modifies this, items
      ensures Valid() && Contents() == Table(Tokens(block, NEWLINE))
    {
      var rest, t := block, Strtok(block, NEWLINE);
      ghost var all, done: seq<string> := Tokens(block, NEWLINE), [];
      while t.Token?
        invariant Valid() && Contents() == Table(done)
        invariant t == Strtok(rest, NEWLINE) && done + Tokens(rest, NEWLINE) == all
        decreases |rest|
      {
        var line := Text(rest, t);
        SetOneLine(line);
        TableSnoc(done, line);
        NextToken(all, done, rest, NEWLINE, t);
        rest, done := rest[After(rest, t)..], done + [line];
        t := Strtok(rest, NEWLINE);
      }
      NextToken(all, done, rest, NEWLINE, t);
    }
  }

  const NEWLINE: set<char> := {'\n'}

  lemma TableSnoc(lines: seq<string>, line: string)
    ensures Table(lines + [line]) == SetLine(Table(lines), line)
  {
    assert (lines + [line])[..|lines|] == lines;
  }

  lemma PlaceIs(t: seq<Header>, name: string, k: nat)
    requires k <= |t| && (k < |t| ==> SameName(t[k].name, name))
    requires forall i | 0 <= i < k :: !SameName(t[i].name, name)
    ensures Place(t, name) == k
  {
    var p := Place(t, name);
  }
}
