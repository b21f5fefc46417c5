/** The route table: a text of lines, parsed once, then searched for the first match. */
module Routing {
  import opened Options
  import opened CStrings
  import opened HttpMethods
  import opened PoolFrames
  import P = PoolSpec
  import R = PoolRegions

  datatype Kind = Alias | Reroute | Proxy

  datatype Route = Route(src: string, dest: string, kind: Kind, methods: bv9)

  const ALL: bv9 := 511
  const SPACING: set<char> := {' ', '\t', '\U{0B}'}
  const COMMA: set<char> := {','}
  const PADDING: set<char> := {' ', '\t'}

  // ---------- words of a line ----------

  function KindOf(s: string): Option<Kind> {
    if SameName(s, "alias") then Some(Alias)
    else if SameName(s, "reroute") then Some(Reroute)
    else if SameName(s, "proxy") then Some(Proxy)
    else None
  }

  function Trimmed(s: string): string {
    s[SkipIn(s, PADDING)..]
  }

  predicate Everything(s: string) {
    s == "*" || SameName(s, "ALL")
  }

  /** Every entry of a method list is a method. */
  predicate KnownMethods(entries: seq<string>) {
    forall i | 0 <= i < |entries| :: FromName(Trimmed(entries[i])).Some?
  }

  /** A method list names m. */
  predicate Lists(s: string, m: Method) {
    Everything(s) || exists i | 0 <= i < |Tokens(s, COMMA)| :: FromName(Trimmed(Tokens(s, COMMA)[i])) == Some(m)
  }

  predicate WellFormedMethods(s: string) {
    Everything(s) || KnownMethods(Tokens(s, COMMA))
  }

  // ---------- the mask of a method list ----------

  lemma OrMeets(a: bv9, b: bv9, c: bv9)
    ensures Meets(a | b, c) <==> Meets(a, c) || Meets(b, c)
  {
  }

  lemma BitsMeet(x: Method, m: Method)
    ensures Meets(Bit(x), Bit(m)) <==> x == m
  {
  }

  lemma OrBit(mask: bv9, x: Method, m: Method)
    ensures Allows(mask | Bit(x), m) <==> Allows(mask, m) || x == m
  {
    BitsMeet(x, m);
    OrMeets(mask, Bit(x), Bit(m));
  }

  lemma AllBits(m: Method)
    ensures Allows(ALL, m)
  {
  }

  /** The mask holds exactly the methods among the entries. */
  ghost predicate Covers(mask: bv9, entries: seq<string>) {
    forall m: Method :: Allows(mask, m) <==> exists i | 0 <= i < |entries| :: FromName(Trimmed(entries[i])) == Some(m)
  }

  lemma CoversMore(mask: bv9, entries: seq<string>, entry: string, x: Method)
    requires Covers(mask, entries) && FromName(Trimmed(entry)) == Some(x)
    ensures Covers(mask | Bit(x), entries + [entry])
  {
    var more := entries + [entry];
    forall m: Method
      ensures Allows(mask | Bit(x), m) <==> exists i | 0 <= i < |more| :: FromName(Trimmed(more[i])) == Some(m)
    {
      OrBit(mask, x, m);
      if exists i | 0 <= i < |entries| :: FromName(Trimmed(entries[i])) == Some(m) {
        var i :| 0 <= i < |entries| && FromName(Trimmed(entries[i])) == Some(m);
        assert more[i] == entries[i];
      }
      assert more[|entries|] == entry;
    }
  }

  /** route_str_to_methods: the mask of a method list, or None for an unknown method. */
  method ParseMethods(s: string) returns (r: Option<bv9>)
    ensures r.Some? <==> WellFormedMethods(s)
    ensures r.Some? ==> forall m: Method :: Allows(r.value, m) <==> Lists(s, m)
  {
    if Everything(s) {
      forall m: Method ensures Allows(ALL, m) { AllBits(m); }
      return Some(ALL);
    }
    r := MaskOf(s);
  }

  /** Adds one entry of a method list to a mask. */
  method AddEntry(mask: bv9, entry: string, ghost done: seq<string>) returns (r: Option<bv9>)
    requires KnownMethods(done) && Covers(mask, done)
    ensures r.Some? <==> FromName(Trimmed(entry)).Some?
    ensures r.Some? ==> KnownMethods(done + [entry]) && Covers(r.value, done + [entry])
  {
    var x := FromName(Trimmed(entry));
    if x.None? { return None; }
    CoversMore(mask, done, entry, x.value);
    return Some(mask | Bit(x.value));
  }

  /** The strtok loop over the entries of a method list. */
  method MaskOf(s: string) returns (r: Option<bv9>)
    ensures r.Some? <==> KnownMethods(Tokens(s, COMMA))
    ensures r.Some? ==> Covers(r.value, Tokens(s, COMMA))
  {
    var rest, t := s, Strtok(s, COMMA);
    r := Some(0);
    ghost var all, done: seq<string> := Tokens(s, COMMA), [];
    while t.Token?
      invariant t == Strtok(rest, COMMA) && done + Tokens(rest, COMMA) == all
      invariant r.Some? && KnownMethods(done) && Covers(r.value, done)
      decreases |rest|
    {
      var entry := Text(rest, t);
      NextToken(all, done, rest, COMMA, t);
      r := AddEntry(r.value, entry, done);
      if r.None? {
        assert FromName(Trimmed(all[|done|])).None?;
        return;
      }
      rest, done := rest[After(rest, t)..], done + [entry];
      t := Strtok(rest, COMMA);
    }
    NextToken(all, done, rest, COMMA, t);
  }

  // ---------- lines ----------

  /** The words of a line, up to a NUL. */
  function Words(line: string): seq<string> {
    Tokens(CStr(line), SPACING)
  }

  /** A line that defines a route. */
  predicate Defines(line: string) {
    && !Skipped(line) && |Words(line)| >= 4
    && KindOf(Words(line)[2]).Some? && WellFormedMethods(Words(line)[0])
  }

  /** route is what a line defines. */
  ghost predicate Means(route: Route, line: string)
    requires Defines(line)
  {
    && route.src == Words(line)[1] && route.dest == Words(line)[3] && Some(route.kind) == KindOf(Words(line)[2])
    && forall m: Method :: Allows(route.methods, m) <==> Lists(Words(line)[0], m)
  }

  /** t is where a word stands in the copy. */
  predicate Placed(scratch: string, t: Token, word: string) {
    t.Token? && t.off + t.len <= |scratch| && Text(scratch, t) == word
  }

  /** One call of strtok on the copy, from pos on. */
  method NextWord(scratch: string, pos: nat, rest: string, ghost all: seq<string>, ghost done: seq<string>)
    returns (t: Token, pos': nat, rest': string)
    requires pos <= |scratch| && rest == scratch[pos..] && done + Tokens(rest, SPACING) == all
    ensures t.NoToken? ==> done == all
    ensures t.Token? ==> && |done| < |all| && Placed(scratch, t, all[|done|])
                         && pos' <= |scratch| && rest' == scratch[pos'..]
                         && done + [all[|done|]] + Tokens(rest', SPACING) == all
  {
    var u := Strtok(rest, SPACING);
    NextToken(all, done, rest, SPACING, u);
    if u.NoToken? { return u, pos, rest; }
    WordInWhole(scratch, pos, rest, u);
    return Token(pos + u.off, u.len), pos + After(rest, u), rest[After(rest, u)..];
  }

  /** A place in the rest is a place in the whole. */
  lemma WordInWhole(s: string, k: nat, rest: string, t: Token)
    requires k <= |s| && rest == s[k..] && t.Token? && t.off + t.len <= |rest|
    ensures Placed(s, Token(k + t.off, t.len), Text(rest, t))
    ensures rest[After(rest, t)..] == s[k + After(rest, t)..]
  {
  }

  /** The first four words of a line, as places in its scratch copy. */
  method FindWords(scratch: string) returns (w: seq<Token>)
    ensures |Tokens(scratch, SPACING)| < 4 ==> w == []
    ensures |Tokens(scratch, SPACING)| >= 4 ==>
              |w| == 4 && forall n | 0 <= n < 4 :: Placed(scratch, w[n], Tokens(scratch, SPACING)[n])
  {
    w := [];
    var pos: nat, rest := 0, scratch;
    ghost var all, done: seq<string> := Tokens(scratch, SPACING), [];
    for n := 0 to 4
      invariant pos <= |scratch| && rest == scratch[pos..] && |w| == |done| == n && done + Tokens(rest, SPACING) == all
      invariant forall i | 0 <= i < n :: Placed(scratch, w[i], done[i])
    {
      var t;
      t, pos, rest := NextWord(scratch, pos, rest, all, done);
      if t.NoToken? { return []; }
      w, done := w + [t], done + [all[|done|]];
    }
    FirstFour(all, done, Tokens(rest, SPACING));
  }

  lemma FirstFour(all: seq<string>, done: seq<string>, rest: seq<string>)
    requires done + rest == all && |done| == 4
    ensures |all| >= 4 && forall i | 0 <= i < 4 :: done[i] == all[i]
  {
  }

  /** One line of the file. The scratch copy is released before the strings are stored, so
      they are taken again from the text, at the places where the words were found. Each
      exit has the restore the code has on its way there. */
  method ParseLine(line: string, ghost p: R.Config) returns (r: Option<Route>, ghost q: R.Config)
    requires !Skipped(line) && R.Good(p) && |p.s.marks| < P.MAX_SAVE_DEPTH
    ensures r.Some? <==> Defines(line)
    ensures r.Some? ==> Means(r.value, line)
    ensures R.Good(q) && q.l == p.l && q.s.marks == p.s.marks
  {
    var scratch := CStr(line);
    r, q := None, Open(p);
    q := Copy(p, q, |scratch| + 1);
    var w := FindWords(scratch);
    if w == [] {
      q := Close(p, q);
      return;
    }
    var kind := KindOf(Text(scratch, w[2]));
    if kind.None? {
      q := Close(p, q);
      return;
    }
    var list := Text(scratch, w[0]);
    if !Everything(list) {
      q := Copy(p, q, |list| + 1);
    }
    var methods := ParseMethods(list);
    if methods.None? {
      q := Close(p, q);
      return;
    }
    q := Close(p, q);
    SamePlaceInLine(line, w[1]);
    SamePlaceInLine(line, w[3]);
    r := Some(Route(Text(line, w[1]), Text(line, w[3]), kind.value, methods.value));
  }

  lemma SamePlaceInLine(line: string, t: Token)
    requires t.Token? && t.off + t.len <= |CStr(line)|
    ensures Text(line, t) == Text(CStr(line), t)
  {
  }

  // ---------- the table ----------

  /** Line n defines a route, and there is memory to append it. */
  predicate Stores(lines: seq<string>, room: nat -> bool, n: nat)
    requires n < |lines|
  {
    Defines(lines[n]) && room(n)
  }

  /** The routes come from the lines that could be stored, in order. */
  ghost predicate TableOf(routes: seq<Route>, lines: seq<string>, room: nat -> bool)
    decreases |lines|
  {
    if lines == [] then routes == []
    else
      var n := |lines| - 1;
      if Stores(lines, room, n) then
        routes != [] && Means(routes[|routes| - 1], lines[n]) && TableOf(routes[..|routes| - 1], lines[..n], room)
      else TableOf(routes, lines[..n], room)
  }

  /** How many lines define a route. */
  function Definitions(lines: seq<string>): nat {
    if lines == [] then 0
    else Definitions(lines[..|lines| - 1]) + if Defines(lines[|lines| - 1]) then 1 else 0
  }

  /** With memory for all of them, every one of them is in the table. */
  lemma {:induction false} AllStored(routes: seq<Route>, lines: seq<string>, room: nat -> bool)
    requires TableOf(routes, lines, room) && forall n: nat :: room(n)
    ensures |routes| == Definitions(lines)
    decreases |lines|
  {
    if lines != [] {
      var n := |lines| - 1;
      AllStored(if Stores(lines, room, n) then routes[..|routes| - 1] else routes, lines[..n], room);
    }
  }

  /** The line loop of routes_parse; room(n) tells whether the array can grow at line n. Every
      line closes the snapshot it opens; afterwards only the two strings of each definition
      are in use besides what was before, also those of a route that could not be stored. */
  method ParseRoutes(text: string, room: nat -> bool, ghost p: R.Config) returns (routes: seq<Route>, ghost q: R.Config)
    requires R.Good(p) && |p.s.marks| < P.MAX_SAVE_DEPTH
    ensures TableOf(routes, TextLines(text), room)
    ensures R.Good(q) && q.s.marks == p.s.marks && Holds(p, q, 2 * Definitions(TextLines(text)))
  {
    routes, q := [], p;
    var rest, lineNo := text, 0;
    ghost var all, done: seq<string> := TextLines(text), [];
    while Find(rest, '\n') < |rest|
      invariant lineNo == |done| && done + TextLines(rest) == all && TableOf(routes, done, room)
      invariant R.Good(q) && q.s.marks == p.s.marks && Holds(p, q, 2 * Definitions(done))
      decreases |rest|
    {
      var k := Find(rest, '\n');
      var line := rest[..k];
      NextLine(all, done, rest);
      routes, q := AddLine(routes, line, lineNo, room, done, p, q);
      rest, done, lineNo := rest[k + 1..], done + [line], lineNo + 1;
    }
    NextLine(all, done, rest);
  }

  /** q uses the regions p does and n more, at the same depth. */
  predicate Holds(p: R.Config, q: R.Config, n: nat) {
    q.l.cuts == p.l.cuts && p.l.live <= q.l.live && |q.l.live| == |p.l.live| + n
  }

  /** The route of a line, or nothing. */
  method OneLine(line: string, room: bool, ghost p: R.Config) returns (more: seq<Route>, ghost q: R.Config)
    requires R.Good(p) && |p.s.marks| < P.MAX_SAVE_DEPTH
    ensures if Defines(line) && room then |more| == 1 && Means(more[0], line) else more == []
    ensures R.Good(q) && q.s.marks == p.s.marks && Holds(p, q, if Defines(line) then 2 else 0)
  {
    more, q := [], p;
    if !Skipped(line) {
      var r;
      r, q := ParseLine(line, p);
      if r.Some? {
        q := Stored(Stored(q, |r.value.dest| + 1), |r.value.src| + 1);
        if room {
          more := [r.value];
        }
      }
    }
  }

  /** One round of the line loop. */
  method AddLine(routes: seq<Route>, line: string, lineNo: nat, room: nat -> bool,
                 ghost done: seq<string>, ghost p: R.Config, ghost p': R.Config)
    returns (all: seq<Route>, ghost q: R.Config)
    requires TableOf(routes, done, room) && lineNo == |done|
    requires R.Good(p') && p'.s.marks == p.s.marks && |p.s.marks| < P.MAX_SAVE_DEPTH
    requires Holds(p, p', 2 * Definitions(done))
    ensures TableOf(all, done + [line], room)
    ensures R.Good(q) && q.s.marks == p.s.marks && Holds(p, q, 2 * Definitions(done + [line]))
  {
    var more;
    more, q := OneLine(line, room(lineNo), p');
    TableGrows(routes, done, line, room, more);
    all := routes + more;
  }

  lemma TableGrows(routes: seq<Route>, lines: seq<string>, line: string, room: nat -> bool, more: seq<Route>)
    requires TableOf(routes, lines, room)
    requires if Defines(line) && room(|lines|) then |more| == 1 && Means(more[0], line) else more == []
    ensures TableOf(routes + more, lines + [line], room)
    ensures Definitions(lines + [line]) == Definitions(lines) + if Defines(line) then 1 else 0
  {
    assert (lines + [line])[..|lines|] == lines;
    if Defines(line) && room(|lines|) {
      assert (routes + more)[..|routes|] == routes;
    } else {
      assert routes + more == routes;
    }
  }

  // ---------- the search ----------

  predicate Hits(r: Route, m: Method, path: string) {
    Allows(r.methods, m) && (path == r.src || (r.kind.Proxy? && r.src <= path))
  }

  /** fetch_response: the first route that hits; None stands for static serving. */
  method Fetch(routes: seq<Route>, m: Method, path: string) returns (r: Option<nat>)
    ensures r.Some? ==> && r.value < |routes| && Hits(routes[r.value], m, path)
                        && forall i | 0 <= i < r.value :: !Hits(routes[i], m, path)
    ensures r.None? ==> forall i | 0 <= i < |routes| :: !Hits(routes[i], m, path)
  {
    for i := 0 to |routes|
      invariant forall k | 0 <= k < i :: !Hits(routes[k], m, path)
    {
      if !Allows(routes[i].methods, m) {
        continue;
      }
      if path == routes[i].src {
        return Some(i);
      } else if routes[i].kind.Proxy? && |routes[i].src| <= |path| && path[..|routes[i].src|] == routes[i].src {
        return Some(i);
      }
    }
    return None;
  }

  // ---------- end to end ----------

  /** A line of the file that answers a request. */
  predicate Answers(line: string, m: Method, path: string) {
    && Defines(line) && Lists(Words(line)[0], m)
    && (path == Words(line)[1] || (KindOf(Words(line)[2]) == Some(Proxy) && Words(line)[1] <= path))
  }

  lemma MeansAnswers(r: Route, line: string, m: Method, path: string)
    requires Defines(line) && Means(r, line)
    ensures Hits(r, m, path) <==> Answers(line, m, path)
  {
  }

  /** Line k is in the table and answers a request. */
  predicate Serves(lines: seq<string>, room: nat -> bool, k: nat, m: Method, path: string)
    requires k < |lines|
  {
    Answers(lines[k], m, path) && room(k)
  }

  /** The line that a route came from, and that no earlier route answers means no earlier
      line does. */
  lemma {:induction false} LineOf(routes: seq<Route>, lines: seq<string>, room: nat -> bool,
                                  i: nat, m: Method, path: string)
    returns (k: nat)
    requires TableOf(routes, lines, room) && i < |routes|
    ensures k < |lines| && Stores(lines, room, k) && Means(routes[i], lines[k])
    ensures (forall a | 0 <= a < i :: !Hits(routes[a], m, path)) ==>
              forall b | 0 <= b < k :: !Serves(lines, room, b, m, path)
    decreases |lines|
  {
    var n := |lines| - 1;
    var init := lines[..n];
    assert forall b | 0 <= b < n :: init[b] == lines[b];
    if Stores(lines, room, n) && i == |routes| - 1 {
      k := n;
      if forall a | 0 <= a < i :: !Hits(routes[a], m, path) {
        NoneAnswers(routes[..i], init, room, m, path);
        ServesInit(lines, room, n, m, path);
      }
    } else {
      var shorter := if Stores(lines, room, n) then routes[..|routes| - 1] else routes;
      k := LineOf(shorter, init, room, i, m, path);
      ServesInit(lines, room, n, m, path);
    }
  }

  lemma ServesInit(lines: seq<string>, room: nat -> bool, n: nat, m: Method, path: string)
    requires n <= |lines|
    ensures forall b | 0 <= b < n :: Serves(lines[..n], room, b, m, path) == Serves(lines, room, b, m, path)
  {
  }

  lemma {:induction false} NoneAnswers(routes: seq<Route>, lines: seq<string>, room: nat -> bool,
                                       m: Method, path: string)
    requires TableOf(routes, lines, room) && forall i | 0 <= i < |routes| :: !Hits(routes[i], m, path)
    ensures forall k | 0 <= k < |lines| :: !Serves(lines, room, k, m, path)
    decreases |lines|
  {
    if lines != [] {
      var n := |lines| - 1;
      if Stores(lines, room, n) {
        MeansAnswers(routes[|routes| - 1], lines[n], m, path);
        NoneAnswers(routes[..|routes| - 1], lines[..n], room, m, path);
      } else {
        NoneAnswers(routes, lines[..n], room, m, path);
      }
      ServesInit(lines, room, n, m, path);
    }
  }

  /** From the text of the file to the route of a request: the route used is what the first
      answering line defines, of those there was memory for; without one, the request is
      served statically. */
  method RouteRequest(text: string, room: nat -> bool, m: Method, path: string, ghost p: R.Config)
    returns (r: Option<Route>, ghost k: nat)
    requires R.Good(p) && |p.s.marks| < P.MAX_SAVE_DEPTH
    ensures r.Some? ==>
              && k < |TextLines(text)| && Serves(TextLines(text), room, k, m, path)
              && Means(r.value, TextLines(text)[k])
              && forall b | 0 <= b < k :: !Serves(TextLines(text), room, b, m, path)
    ensures r.None? ==> forall b | 0 <= b < |TextLines(text)| :: !Serves(TextLines(text), room, b, m, path)
  {
    k := 0;
    var routes, q := ParseRoutes(text, room, p);
    var i := Fetch(routes, m, path);
    if i.Some? {
      k := LineOf(routes, TextLines(text), room, i.value, m, path);
      MeansAnswers(routes[i.value], TextLines(text)[k], m, path);
      r := Some(routes[i.value]);
    } else {
      NoneAnswers(routes, TextLines(text), room, m, path);
      r := None;
    }
  }
}
