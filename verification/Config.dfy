/** Looking up a key in the configuration file, with the memory pool the lookup uses. */
module Config {
  import opened CStrings
  import opened PoolFrames
  import P = PoolSpec
  import R = PoolRegions

  /** Undefined stands for the two places where the code reads past the copied line: behind
      a key that only blanks follow, and behind a value that is blank up to the line end. */
  datatype Answer = Missing | Found(value: string) | Undefined

  const KEY_ENDS: set<char> := {' ', '='}

  // ---------- what is on a line ----------

  /** The line opens a section. */
  predicate Opens(line: string) {
    CStr(line) != "" && CStr(line)[0] == '['
  }

  predicate Closed(line: string) {
    Find(CStr(line), ']') < |CStr(line)|
  }

  /** The name between the brackets. */
  function NameOn(line: string): string
    requires Opens(line) && Closed(line)
  {
    CStr(line)[1..Find(CStr(line), ']')]
  }

  function KeyEnd(line: string): (ke: nat)
    ensures ke <= |CStr(line)|
  {
    SkipOut(CStr(line), KEY_ENDS)
  }

  predicate HasKey(line: string) {
    KeyEnd(line) < |CStr(line)|
  }

  function KeyOn(line: string): string {
    CStr(line)[..KeyEnd(line)]
  }

  /** What the code takes as the value on a line whose key ends at ke. It does not look at
      the character it takes for the equals sign. */
  function ValueOn(line: string, ke: nat): (a: Answer)
    requires ke <= |CStr(line)|
    ensures !a.Missing?
  {
    var copy := CStr(line);
    var eq := SkipInFrom(copy, ke, SPACES);
    if eq == |copy| then Undefined
    else
      var v := SkipInFrom(copy, eq + 1, SPACES);
      if v == |line| then Undefined else Found(copy[v..])
  }

  // ---------- the search ----------

  /** What one line does to the search. */
  datatype Verdict = Stop(answer: Answer) | GoOn(inSection: bool)

  /** Names match as strncmp compares them: the name in the file may be a mere prefix of the
      one asked for. */
  function Judge(line: string, inSection: bool, section: string, key: string): Verdict {
    if inSection then
      if Opens(line) || !HasKey(line) then Stop(Missing)
      else if KeyOn(line) <= key then Stop(ValueOn(line, KeyEnd(line)))
      else GoOn(true)
    else if Opens(line) then
      if !Closed(line) then Stop(Missing) else GoOn(NameOn(line) <= section)
    else GoOn(false)
  }

  function Search(lines: seq<string>, inSection: bool, section: string, key: string): Answer {
    if lines == [] then Missing
    else if Skipped(lines[0]) then Search(lines[1..], inSection, section, key)
    else match Judge(lines[0], inSection, section, key)
      case Stop(a) => a
      case GoOn(s) => Search(lines[1..], s, section, key)
  }

  // ---------- which line answers ----------

  /** Before the section, lines that do not open one and sections of other names. */
  predicate Ignored(line: string, section: string) {
    Opens(line) ==> Closed(line) && !(NameOn(line) <= section)
  }

  predicate Enters(line: string, section: string) {
    Opens(line) && Closed(line) && NameOn(line) <= section
  }

  /** Inside the section, skipped lines and entries with other keys. */
  predicate Passes(line: string, key: string) {
    Skipped(line) || (!Opens(line) && HasKey(line) && !(KeyOn(line) <= key))
  }

  predicate Answers(line: string, key: string) {
    !Skipped(line) && !Opens(line) && HasKey(line) && KeyOn(line) <= key
  }

  /** Line d answers: line h is the first whose section name is a prefix of the section asked
      for, with no unclosed section name before it, and line d the first behind it whose key
      is a prefix of the key asked for, with only entries and skipped lines between them. */
  ghost predicate AnsweredBy(lines: seq<string>, section: string, key: string, h: nat, d: nat) {
    && h < d < |lines|
    && Enters(lines[h], section) && (forall i | 0 <= i < h :: Ignored(lines[i], section))
    && Answers(lines[d], key) && (forall i | h < i < d :: Passes(lines[i], key))
  }

  lemma {:induction false} InsideAnswers(lines: seq<string>, section: string, key: string, d: nat)
    requires d < |lines| && Answers(lines[d], key) && forall i | 0 <= i < d :: Passes(lines[i], key)
    ensures Search(lines, true, section, key) == ValueOn(lines[d], KeyEnd(lines[d]))
    decreases d
  {
    if d > 0 {
      assert Passes(lines[0], key);
      InsideAnswers(lines[1..], section, key, d - 1);
    }
  }

  lemma {:induction false} OutsideEnters(lines: seq<string>, section: string, key: string, h: nat)
    requires h < |lines| && Enters(lines[h], section) && forall i | 0 <= i < h :: Ignored(lines[i], section)
    ensures Search(lines, false, section, key) == Search(lines[h + 1..], true, section, key)
    decreases h
  {
    if h > 0 {
      assert Ignored(lines[0], section);
      OutsideEnters(lines[1..], section, key, h - 1);
      assert lines[1..][h..] == lines[h + 1..];
    }
  }

  lemma AnsweredByDecides(lines: seq<string>, section: string, key: string, h: nat, d: nat)
    requires AnsweredBy(lines, section, key, h, d)
    ensures Search(lines, false, section, key) == ValueOn(lines[d], KeyEnd(lines[d]))
  {
    OutsideEnters(lines, section, key, h);
    var rest := lines[h + 1..];
    forall i | 0 <= i < d - h - 1
      ensures Passes(rest[i], key)
    {
      assert rest[i] == lines[h + 1 + i];
    }
    InsideAnswers(rest, section, key, d - h - 1);
  }

  lemma {:induction false} InsideFinds(lines: seq<string>, section: string, key: string) returns (d: nat)
    requires !Search(lines, true, section, key).Missing?
    ensures d < |lines| && Answers(lines[d], key) && forall i | 0 <= i < d :: Passes(lines[i], key)
  {
    if Passes(lines[0], key) {
      var k := InsideFinds(lines[1..], section, key);
      d := k + 1;
      assert forall i | 0 < i < d :: lines[i] == lines[1..][i - 1];
    } else {
      d := 0;
    }
  }

  lemma {:induction false} OutsideFinds(lines: seq<string>, section: string, key: string) returns (h: nat)
    requires !Search(lines, false, section, key).Missing?
    ensures h < |lines| && Enters(lines[h], section) && forall i | 0 <= i < h :: Ignored(lines[i], section)
  {
    if Ignored(lines[0], section) {
      var k := OutsideFinds(lines[1..], section, key);
      h := k + 1;
      assert forall i | 0 < i < h :: lines[i] == lines[1..][i - 1];
    } else {
      h := 0;
    }
  }

  /** The lookup finds something exactly if some line answers, and what it finds is what is
      on that line. */
  lemma SearchMeaning(lines: seq<string>, section: string, key: string)
    ensures !Search(lines, false, section, key).Missing?
       <==> exists h: nat, d: nat :: AnsweredBy(lines, section, key, h, d)
    ensures forall h: nat, d: nat | AnsweredBy(lines, section, key, h, d) ::
              Search(lines, false, section, key) == ValueOn(lines[d], KeyEnd(lines[d]))
  {
    forall h: nat, d: nat | AnsweredBy(lines, section, key, h, d)
      ensures Search(lines, false, section, key) == ValueOn(lines[d], KeyEnd(lines[d]))
    {
      AnsweredByDecides(lines, section, key, h, d);
    }
    if !Search(lines, false, section, key).Missing? {
      var h := OutsideFinds(lines, section, key);
      OutsideEnters(lines, section, key, h);
      var k := InsideFinds(lines[h + 1..], section, key);
      var d := h + 1 + k;
      forall i | h < i < d
        ensures Passes(lines[i], key)
      {
        assert lines[i] == lines[h + 1..][i - h - 1];
      }
      assert AnsweredBy(lines, section, key, h, d);
    }
  }

  // ---------- the lookup ----------

  /** config_get. Every path closes the snapshots it opens, one at a time and at most one for
      every line, so the regions in use afterwards are those before and, for a key that was
      found, the string returned: it is allocated after the scratch copy it was found in has
      been released. */
  method Get(text: string, section: string, key: string, ghost p: R.Config)
    returns (r: Answer, ghost q: R.Config, ghost frames: nat)
    requires R.Good(p) && |p.s.marks| < P.MAX_SAVE_DEPTH
    ensures r == Search(TextLines(text), false, section, key)
    ensures !r.Missing? <==> exists h: nat, d: nat :: AnsweredBy(TextLines(text), section, key, h, d)
    ensures forall h: nat, d: nat | AnsweredBy(TextLines(text), section, key, h, d) ::
              r == ValueOn(TextLines(text)[d], KeyEnd(TextLines(text)[d]))
    ensures R.Good(q) && q.s.marks == p.s.marks && q.l.cuts == p.l.cuts && frames <= |TextLines(text)|
    ensures !r.Found? ==> q.l == p.l
    ensures r.Found? ==> && |q.l.live| == |p.l.live| + 1 && p.l.live <= q.l.live
                         && !q.l.live[|p.l.live|].addr.Null? && q.l.live[|p.l.live|].size == |r.value| + 1
  {
    SearchMeaning(TextLines(text), section, key);
    r, q, frames := Scan(text, section, key, p);
    if r.Found? {
      q := Stored(q, |r.value| + 1);
    }
  }

  /** The loop over the lines, each copied inside a snapshot of its own. `frames` counts the
      snapshots. */
  method Scan(text: string, section: string, key: string, ghost p: R.Config)
    returns (r: Answer, ghost q: R.Config, ghost frames: nat)
    requires R.Good(p) && |p.s.marks| < P.MAX_SAVE_DEPTH
    ensures r == Search(TextLines(text), false, section, key)
    ensures R.Good(q) && q.l == p.l && q.s.marks == p.s.marks && frames <= |TextLines(text)|
  {
    q, frames := p, 0;
    var rest, foundSection := text, false;
    while Find(rest, '\n') < |rest|
      invariant R.Good(q) && q.l == p.l && q.s.marks == p.s.marks
      invariant Search(TextLines(rest), foundSection, section, key) == Search(TextLines(text), false, section, key)
      invariant frames + |TextLines(rest)| <= |TextLines(text)|
      decreases |rest|
    {
      var k := Find(rest, '\n');
      var line := rest[..k];
      TextLinesUnfold(rest, k);
      rest := rest[k + 1..];
      if !Skipped(line) {
        var verdict;
        frames := frames + 1;
        if foundSection {
          verdict, q := InsideLine(line, section, key, q);
        } else {
          verdict, q := OutsideLine(line, section, key, q);
        }
        if verdict.Stop? { return verdict.answer, q, frames; }
        foundSection := verdict.inSection;
      }
    }
    r := Missing;
  }

  /** A line of the section: each exit has the restore the code has there. */
  method InsideLine(line: string, section: string, key: string, ghost p: R.Config)
    returns (v: Verdict, ghost q: R.Config)
    requires R.Good(p) && |p.s.marks| < P.MAX_SAVE_DEPTH
    ensures v == Judge(line, true, section, key)
    ensures R.Good(q) && q.l == p.l && q.s.marks == p.s.marks
  {
    q := Open(p);
    q := Copy(p, q, |CStr(line)| + 1);
    v, q := InsideCopy(line, section, key, p, q);
  }

  method InsideCopy(line: string, section: string, key: string, ghost p: R.Config, ghost copied: R.Config)
    returns (v: Verdict, ghost q: R.Config)
    requires Framed(p, copied)
    ensures v == Judge(line, true, section, key)
    ensures R.Good(q) && q.l == p.l && q.s.marks == p.s.marks
  {
    var copy := CStr(line);
    if copy != "" && copy[0] == '[' {
      q := Close(p, copied);
      return Stop(Missing), q;
    }
    var keyEnd := SkipOut(copy, KEY_ENDS);
    if keyEnd == |copy| {
      q := Close(p, copied);
      return Stop(Missing), q;
    }
    var same := SameStart(copy, key, keyEnd);
    if same {
      var a;
      a, q := ReadValue(line, keyEnd, p, copied);
      return Stop(a), q;
    }
    q := Close(p, copied);
    return GoOn(true), q;
  }

  /** strncmp(a, b, n) == 0, for n characters of a. */
  method SameStart(a: string, b: string, n: nat) returns (same: bool)
    requires n <= |a|
    ensures same <==> a[..n] <= b
  {
    for i := 0 to n
      invariant i <= |b| && a[..i] == b[..i]
    {
      if i == |b| || a[i] != b[i] {
        assert a[..n][i] == a[i];
        return false;
      }
    }
    return true;
  }

  /** Finds the value in the copy, releases the copy, and skips the blanks before the value in
      the text. Looking for the end of the copy from behind its end is undefined, and so is
      a blank value, of which the skipping would not stop at the line end. */
  method ReadValue(line: string, ke: nat, ghost p: R.Config, ghost q: R.Config)
    returns (a: Answer, ghost r: R.Config)
    requires ke <= |CStr(line)| && Framed(p, q)
    ensures a == ValueOn(line, ke)
    ensures R.Good(r) && r.l == p.l && r.s.marks == p.s.marks
  {
    var copy, keyEnd := CStr(line), ke;
    while keyEnd < |copy| && copy[keyEnd] in SPACES
      invariant ke <= keyEnd <= |copy| && SkipInFrom(copy, keyEnd, SPACES) == SkipInFrom(copy, ke, SPACES)
    {
      keyEnd := keyEnd + 1;
    }
    var valueOff, valueLen := keyEnd + 1, |copy| - (keyEnd + 1);
    r := Close(p, q);
    if valueLen < 0 { return Undefined, r; }
    var wraps;
    valueOff, valueLen, wraps := SkipBlanks(line, valueOff, valueLen);
    a := if wraps then Undefined else Found(line[valueOff..valueOff + valueLen]);
  }

  /** The blanks before a value. The length left wraps below zero exactly if they go on to the
      line end, which is a blank itself. */
  method SkipBlanks(line: string, valueOff: nat, valueLen: nat) returns (off: nat, len: nat, wraps: bool)
    requires valueOff + valueLen == |CStr(line)|
    ensures off + len == |CStr(line)| && off == SkipInFrom(CStr(line), valueOff, SPACES)
    ensures wraps <==> off == |line|
    ensures wraps ==> len == 0
  {
    off, len := valueOff, valueLen;
    ghost var copy := CStr(line);
    while off < |line| && line[off] in SPACES
      invariant valueOff <= off && off + len == |copy|
      invariant SkipInFrom(copy, off, SPACES) == SkipInFrom(copy, valueOff, SPACES)
    {
      assert off < |copy|;
      off, len := off + 1, len - 1;
    }
    wraps := off == |line|;
  }

  /** A line before the section. */
  method OutsideLine(line: string, section: string, key: string, ghost p: R.Config)
    returns (v: Verdict, ghost q: R.Config)
    requires R.Good(p) && |p.s.marks| < P.MAX_SAVE_DEPTH
    ensures v == Judge(line, false, section, key)
    ensures R.Good(q) && q.l == p.l && q.s.marks == p.s.marks
  {
    q := Open(p);
    var copy, found := CStr(line), false;
    q := Copy(p, q, |copy| + 1);
    if copy != "" && copy[0] == '[' {
      var nameEnd := Find(copy, ']');
      if nameEnd == |copy| {
        q := Close(p, q);
        return Stop(Missing), q;
      }
      found := SameStart(copy[1..], section, nameEnd - 1);
      assert copy[1..][..nameEnd - 1] == copy[1..nameEnd];
    }
    q := Close(p, q);
    return GoOn(found), q;
  }

  // ---------- does a key get its own entry ----------

  /** Lines that decide the search whatever follows them. */
  predicate Stops(lines: seq<string>, inSection: bool, section: string, key: string) {
    if lines == [] then false
    else if Skipped(lines[0]) then Stops(lines[1..], inSection, section, key)
    else match Judge(lines[0], inSection, section, key)
      case Stop(_) => true
      case GoOn(s) => Stops(lines[1..], s, section, key)
  }

  lemma {:induction false} StopIsFinal(a: seq<string>, b: seq<string>, inSection: bool, section: string, key: string)
    requires Stops(a, inSection, section, key)
    ensures Search(a + b, inSection, section, key) == Search(a, inSection, section, key)
  {
    assert (a + b)[0] == a[0] && (a + b)[1..] == a[1..] + b;
    if Skipped(a[0]) {
      StopIsFinal(a[1..], b, inSection, section, key);
    } else {
      match Judge(a[0], inSection, section, key)
      case Stop(_) =>
      case GoOn(s) => StopIsFinal(a[1..], b, s, section, key);
    }
  }

  lemma {:induction false} NoStopInside(a: seq<string>, section: string, key: string)
    requires !Stops(a, true, section, key)
    ensures forall i | 0 <= i < |a| :: Passes(a[i], key)
  {
    if a != [] {
      NoStopInside(a[1..], section, key);
      assert forall i | 0 < i < |a| :: a[i] == a[1..][i - 1];
    }
  }

  /** Lines that decide nothing hold no section that matches, or one and entries of other keys. */
  lemma {:induction false} NoStopOutside(a: seq<string>, section: string, key: string) returns (h: nat)
    requires !Stops(a, false, section, key)
    ensures h <= |a| && (forall i | 0 <= i < h :: Ignored(a[i], section))
    ensures h < |a| ==> Enters(a[h], section) && forall i | h < i < |a| :: Passes(a[i], key)
  {
    h := 0;
    if a != [] {
      assert forall i | 0 < i < |a| :: a[i] == a[1..][i - 1];
      if Ignored(a[0], section) {
        var k := NoStopOutside(a[1..], section, key);
        h := k + 1;
      } else {
        NoStopInside(a[1..], section, key);
      }
    }
  }

  /** Line h opens the section of that very name, and line d is an entry of it with that very key. */
  ghost predicate Own(lines: seq<string>, section: string, key: string, h: nat, d: nat) {
    && h < d < |lines|
    && Opens(lines[h]) && Closed(lines[h]) && NameOn(lines[h]) == section
    && (forall i | h < i < d :: !Opens(lines[i]))
    && !Skipped(lines[d]) && !Opens(lines[d]) && HasKey(lines[d]) && KeyOn(lines[d]) == key
  }

  /** No earlier section name is a prefix of this one, or unclosed; and no earlier key of this
      section is a prefix of this key, nor is there a line without a key. */
  ghost predicate Unhidden(lines: seq<string>, section: string, key: string, h: nat, d: nat)
    requires h < d < |lines|
  {
    && (forall i | 0 <= i < h && Opens(lines[i]) :: Closed(lines[i]) && !(NameOn(lines[i]) <= section))
    && (forall i | h < i < d && !Skipped(lines[i]) :: HasKey(lines[i]) && !(KeyOn(lines[i]) <= key))
  }

  lemma UndecidedIsUnhidden(lines: seq<string>, section: string, key: string, h: nat, d: nat)
    requires Own(lines, section, key, h, d) && !Stops(lines[..d], false, section, key)
    ensures Unhidden(lines, section, key, h, d)
  {
    var a := lines[..d];
    var k := NoStopOutside(a, section, key);
    assert forall i | 0 <= i < d :: a[i] == lines[i];
    assert !Ignored(a[h], section) && !Passes(a[h], key);
  }

  /** In any file, whatever sections, comments and blanks it has: a key of a section is
      answered by its own entry if the entry is unhidden, and otherwise the lookup has been
      decided before it and would be the same with anything else, x, on that line. */
  lemma OwnEntryAnswers(lines: seq<string>, section: string, key: string, h: nat, d: nat, x: string)
    requires Own(lines, section, key, h, d)
    ensures Unhidden(lines, section, key, h, d) ==> Search(lines, false, section, key) == ValueOn(lines[d], |key|)
    ensures !Unhidden(lines, section, key, h, d) ==>
              Search(lines[d := x], false, section, key) == Search(lines, false, section, key)
  {
    if !Stops(lines[..d], false, section, key) {
      UndecidedIsUnhidden(lines, section, key, h, d);
    }
    if Unhidden(lines, section, key, h, d) {
      assert AnsweredBy(lines, section, key, h, d);
      AnsweredByDecides(lines, section, key, h, d);
    } else {
      assert lines == lines[..d] + lines[d..];
      StopIsFinal(lines[..d], lines[d..], false, section, key);
      assert lines[d := x] == lines[..d] + ([x] + lines[d + 1..]);
      StopIsFinal(lines[..d], [x] + lines[d + 1..], false, section, key);
    }
  }

  // ---------- what the value is ----------

  ghost predicate Blank(s: string) {
    forall i | 0 <= i < |s| :: IsSpace(s[i])
  }

  /** A key, blanks, one character, blanks and a value: the value is read, whatever the
      character is. */
  lemma ValueRead(key: string, b1: string, c: char, b2: string, value: string)
    requires Blank(b1) && !IsSpace(c) && Blank(b2) && value != "" && !IsSpace(value[0])
    requires Without(key + b1 + [c] + b2 + value, '\0')
    ensures ValueOn(key + b1 + [c] + b2 + value, |key|) == Found(value)
  {
    var line := key + b1 + [c] + b2 + value;
    var eq, v := |key| + |b1|, |key| + |b1| + 1 + |b2|;
    assert line[eq] == c && line[v] == value[0];
    assert forall i | |key| <= i < eq :: line[i] == b1[i - |key|];
    assert forall i | eq < i < v :: line[i] == b2[i - eq - 1];
    assert SkipInFrom(line, |key|, SPACES) == eq;
    assert SkipInFrom(line, eq + 1, SPACES) == v;
    assert line[v..] == value;
  }

  predicate NonBlank(line: string, i: nat)
    requires i < |line|
  {
    !IsSpace(line[i])
  }

  /** The value is undefined exactly if nothing but blanks follows the key in the copy, or
      the line holds no NUL and at most one character behind the key that is not blank. */
  lemma UndefinedIff(line: string, ke: nat)
    requires ke <= |CStr(line)|
    ensures ValueOn(line, ke).Undefined? <==> NoValue(line, ke)
  {
    var copy := CStr(line);
    var eq := SkipInFrom(copy, ke, SPACES);
    if eq < |copy| {
      assert NonBlank(line, eq);
      var v := SkipInFrom(copy, eq + 1, SPACES);
      if v < |copy| {
        assert NonBlank(line, v);
      }
      assert |copy| == |line| <==> Without(line, '\0');
    }
  }

  ghost predicate NoValue(line: string, ke: nat) {
    || (forall i | ke <= i < |CStr(line)| :: IsSpace(CStr(line)[i]))
    || (Without(line, '\0') && forall i, j | ke <= i < j < |line| :: !(NonBlank(line, i) && NonBlank(line, j)))
  }

  /** The lookup is undefined exactly if the line that answers is such a line. */
  lemma SearchUndefinedIff(lines: seq<string>, section: string, key: string)
    ensures Search(lines, false, section, key).Undefined? <==>
              exists h: nat, d: nat :: AnsweredBy(lines, section, key, h, d) && NoValue(lines[d], KeyEnd(lines[d]))
  {
    SearchMeaning(lines, section, key);
    if !Search(lines, false, section, key).Missing? {
      var h: nat, d: nat :| AnsweredBy(lines, section, key, h, d);
      UndefinedIff(lines[d], KeyEnd(lines[d]));
    }
    forall h: nat, d: nat | AnsweredBy(lines, section, key, h, d) && NoValue(lines[d], KeyEnd(lines[d]))
      ensures Search(lines, false, section, key).Undefined?
    {
      UndefinedIff(lines[d], KeyEnd(lines[d]));
    }
  }

  // ---------- files that are read wrongly ----------

  predicate PlainName(name: string) {
    Without(name, '\0') && Without(name, ']')
  }

  predicate PlainKey(key: string) {
    && Without(key, ' ') && Without(key, '=')
    && key != "" && key[0] !in {'#', '['} && Without(key, '\0')
  }

  /** A line [name]. */
  lemma SectionLine(name: string)
    requires PlainName(name)
    ensures var line := "[" + name + "]"; !Skipped(line) && Opens(line) && Closed(line) && NameOn(line) == name
  {
    var line := "[" + name + "]";
    assert Without(line, '\0') && CStr(line) == line;
    FindIs(line, ']', |name| + 1);
    assert line[1..|name| + 1] == name;
  }

  /** Other lines: one that does not start with a bracket opens nothing, a bracket that is not
      closed names nothing, and without a blank or an equals sign there is no key. */
  lemma OtherLines(line: string)
    requires Without(line, '\0')
    ensures Opens(line) <==> line != "" && line[0] == '['
    ensures Closed(line) <==> !Without(line, ']')
    ensures HasKey(line) <==> !Without(line, ' ') || !Without(line, '=')
  {
    assert CStr(line) == line;
    var close, end := Find(line, ']'), SkipOut(line, KEY_ENDS);
    assert close < |line| ==> line[close] == ']';
    assert end < |line| ==> line[end] == ' ' || line[end] == '=';
  }

  /** A line that starts with a key and something that ends it. */
  lemma KeyLine(key: string, c: char, rest: string)
    requires PlainKey(key) && (c == ' ' || c == '=') && Without(rest, '\0')
    ensures var line := key + [c] + rest;
            !Skipped(line) && !Opens(line) && HasKey(line) && KeyEnd(line) == |key| && KeyOn(line) == key
  {
    var line := key + [c] + rest;
    assert line[|key|] == c && Without(line, '\0') && CStr(line) == line;
    SkipOutIs(line, KEY_ENDS, |key|);
    assert line[..|key|] == key;
  }

  /** The first entry of a section that matches. */
  lemma FirstEntry(name: string, line: string, more: seq<string>, section: string, key: string)
    requires PlainName(name) && name <= section && Answers(line, key)
    ensures Search(["[" + name + "]", line] + more, false, section, key) == ValueOn(line, KeyEnd(line))
  {
    SectionLine(name);
    var lines := ["[" + name + "]", line] + more;
    assert lines[1] == line;
    AnsweredByDecides(lines, section, key, 0, 1);
  }

  /** A key hides every longer one behind it: the lookup of the longer one yields its value. */
  lemma KeyHides(section: string, short: string, value: string, more: seq<string>, key: string)
    requires PlainName(section) && PlainKey(short) && short <= key
    requires value != "" && !IsSpace(value[0]) && Without(value, '\0')
    ensures Search(["[" + section + "]", short + "=" + value] + more, false, section, key) == Found(value)
  {
    KeyLine(short, '=', value);
    FirstEntry(section, short + "=" + value, more, section, key);
    assert short + "" + ['='] + "" + value == short + "=" + value;
    ValueRead(short, "", '=', "", value);
  }

  lemma Spelled()
    ensures "[" + "server" + "]" == "[server]" && "[" + "s" + "]" == "[s]" && "p" + "=" + "1" == "p=1"
    ensures "x" + ['='] + "1" == "x=1" && "port" + [' '] + "=" == "port ="
  {
  }

  /** For instance, the port of this server is looked up as 1. */
  lemma PortIsHidden()
    ensures Search(["[server]", "p=1", "port=80"], false, "server", "port") == Found("1")
  {
    Spelled();
    assert ["[server]", "p=1"] + ["port=80"] == ["[server]", "p=1", "port=80"];
    KeyHides("server", "p", "1", ["port=80"], "port");
  }

  /** A section hides every section of a longer name behind it: the lookup ends there. */
  lemma SectionHides(name: string, line: string, section: string, more: seq<string>, key: string)
    requires PlainName(name) && PlainName(section) && name <= section && Passes(line, key)
    ensures Search(["[" + name + "]", line, "[" + section + "]"] + more, false, section, key) == Missing
  {
    SectionLine(name);
    SectionLine(section);
    var lines := ["[" + name + "]", line, "[" + section + "]"] + more;
    OutsideEnters(lines, section, key, 0);
    assert lines[1..][0] == line && lines[1..][1..][0] == "[" + section + "]";
  }

  /** For instance, this port is not found, although no key stands in its way. */
  lemma SectionIsHidden()
    ensures Search(["[s]", "x=1", "[server]", "port=80"], false, "server", "port") == Missing
  {
    Spelled();
    KeyLine("x", '=', "1");
    SectionHides("s", "x=1", "server", ["port=80"], "port");
    assert ["[s]", "x=1", "[server]"] + ["port=80"] == ["[s]", "x=1", "[server]", "port=80"];
  }

  /** A key without a value makes the code read on behind the line. */
  lemma PortIsUndefined()
    ensures Search(["[server]", "port ="], false, "server", "port") == Undefined
  {
    var line := "port" + [' '] + "=";
    KeyLine("port", ' ', "=");
    FirstEntry("server", line, [], "server", "port");
    Spelled();
    assert ["[server]", line] + [] == ["[server]", line];
    UndefinedIff(line, 4);
    assert |line| == 6 && !NonBlank(line, 4);
  }

  /** Without an equals sign the first character of the value is lost. */
  lemma FirstCharacterLost(section: string, key: string, c: char, value: string)
    requires PlainName(section) && PlainKey(key) && !IsSpace(c) && value != "" && !IsSpace(value[0])
    requires Without([c] + value, '\0')
    ensures Search(["[" + section + "]", key + " " + [c] + value], false, section, key) == Found(value)
  {
    var line := key + " " + [c] + value;
    assert line == key + [' '] + ([c] + value) == key + " " + [c] + "" + value;
    KeyLine(key, ' ', [c] + value);
    FirstEntry(section, line, [], section, key);
    assert ["[" + section + "]", line] + [] == ["[" + section + "]", line];
    ValueRead(key, " ", c, "", value);
  }

  /** A file with two sections, an empty line, a comment and blanks around the equals sign
      is read as meant, unless the first section's name is a prefix of the second's. */
  lemma FileIsRead(name: string, entry: string, section: string, comment: string,
                   key: string, b1: string, b2: string, value: string)
    requires PlainName(name) && PlainName(section) && !(name <= section) && !Opens(entry)
    requires PlainKey(key) && Blank(b1) && Blank(b2) && value != "" && !IsSpace(value[0]) && Without(value, '\0')
    ensures var line := key + " " + b1 + "=" + b2 + value;
            var lines := ["[" + name + "]", entry, "", "[" + section + "]", "#" + comment, line];
            Search(lines, false, section, key) == Found(value)
  {
    var rest, line := b1 + "=" + b2 + value, key + " " + b1 + "=" + b2 + value;
    assert line == key + [' '] + rest == key + (" " + b1) + ['='] + b2 + value;
    SectionLine(name);
    SectionLine(section);
    KeyLine(key, ' ', rest);
    var lines := ["[" + name + "]", entry, "", "[" + section + "]", "#" + comment, line];
    assert !Opens("") && Skipped("#" + comment);
    AnsweredByDecides(lines, section, key, 3, 5);
    ValueRead(key, " " + b1, '=', b2, value);
  }
}
