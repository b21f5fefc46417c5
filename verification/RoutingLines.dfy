/** What the lines of a routes file are, spelled out. */
module RoutingLines {
  import opened Options
  import opened CStrings
  import opened HttpMethods
  import opened Routing

  // ---------- kinds ----------

  /** A route is of the kind its third word names, in any case of letters. */
  lemma KindIs(s: string)
    ensures KindOf(s) == Some(Alias) <==> SameName(s, "alias")
    ensures KindOf(s) == Some(Reroute) <==> SameName(s, "reroute")
    ensures KindOf(s) == Some(Proxy) <==> SameName(s, "proxy")
  {
    assert Lower("alias")[0] == 'a' && Lower("proxy")[0] == 'p' && |Lower("reroute")| == 7;
  }

  // ---------- words ----------

  predicate IsBlank(c: char) {
    c == ' ' || c == '\t' || c == '\U{0B}'
  }

  /** One or more blanks. */
  predicate Gap(b: string) {
    b != "" && forall i | 0 <= i < |b| :: IsBlank(b[i])
  }

  predicate Word(w: string) {
    w != "" && forall i | 0 <= i < |w| :: !IsBlank(w[i]) && w[i] != '\0'
  }

  lemma {:induction false} GapSkipped(b: string, rest: string)
    requires forall i | 0 <= i < |b| :: IsBlank(b[i])
    ensures Tokens(b + rest, SPACING) == Tokens(rest, SPACING)
  {
    if b == "" {
      assert b + rest == rest;
    } else {
      GapSkipped(b[1..], rest);
      Peeled(b, rest);
      DelimiterSkipped(b[0], b[1..] + rest, SPACING);
    }
  }

  lemma Peeled(b: string, rest: string)
    requires b != ""
    ensures b + rest == [b[0]] + (b[1..] + rest)
  {
  }

  lemma WordFirst(w: string, b: string, rest: string)
    requires Word(w) && Gap(b)
    ensures Tokens(w + (b + rest), SPACING) == [w] + Tokens(rest, SPACING)
  {
    assert w + (b + rest) == w + [b[0]] + (b[1..] + rest);
    TokensAre(w, b[0], b[1..] + rest, SPACING);
    GapSkipped(b[1..], rest);
  }

  /** A line of four words with blanks between them, and anything after one more blank. */
  function RouteLine(list: string, b1: string, src: string, b2: string, kind: string, b3: string, dest: string)
    : string
  {
    list + (b1 + (src + (b2 + (kind + (b3 + dest)))))
  }

  lemma WordsAre(list: string, b1: string, src: string, b2: string, kind: string, b3: string, dest: string)
    requires Word(list) && Word(src) && Word(kind) && Word(dest) && Gap(b1) && Gap(b2) && Gap(b3)
    ensures Words(RouteLine(list, b1, src, b2, kind, b3, dest)) == [list, src, kind, dest]
  {
    var line := RouteLine(list, b1, src, b2, kind, b3, dest);
    LineWithoutNul(list, b1, src, b2, kind, b3, dest);
    assert CStr(line) == line;
    WordFirst(list, b1, src + (b2 + (kind + (b3 + dest))));
    WordFirst(src, b2, kind + (b3 + dest));
    WordFirst(kind, b3, dest);
    TokensAre(dest, ' ', "", SPACING);
    FourWords(list, src, kind, dest);
  }

  lemma FourWords(a: string, b: string, c: string, d: string)
    ensures [a] + ([b] + ([c] + [d])) == [a, b, c, d]
  {
  }

  lemma LineWithoutNul(list: string, b1: string, src: string, b2: string, kind: string, b3: string, dest: string)
    requires Word(list) && Word(src) && Word(kind) && Word(dest) && Gap(b1) && Gap(b2) && Gap(b3)
    ensures Without(RouteLine(list, b1, src, b2, kind, b3, dest), '\0')
  {
    WithoutConcat(b3, dest, '\0');
    WithoutConcat(kind, b3 + dest, '\0');
    WithoutConcat(b2, kind + (b3 + dest), '\0');
    WithoutConcat(src, b2 + (kind + (b3 + dest)), '\0');
    WithoutConcat(b1, src + (b2 + (kind + (b3 + dest))), '\0');
    WithoutConcat(list, b1 + (src + (b2 + (kind + (b3 + dest)))), '\0');
  }

  /** Such a line defines a route exactly if it is no comment, its third word names a kind and
      its first is a list of methods; and then the route leads from the second word to the
      fourth. */
  lemma RouteLineDefines(list: string, b1: string, src: string, b2: string, kind: string, b3: string, dest: string)
    requires Word(list) && Word(src) && Word(kind) && Word(dest) && Gap(b1) && Gap(b2) && Gap(b3)
    ensures var line := RouteLine(list, b1, src, b2, kind, b3, dest);
            && (Defines(line) <==> && list[0] != '#'
                                   && (SameName(kind, "alias") || SameName(kind, "reroute") || SameName(kind, "proxy"))
                                   && WellFormedMethods(list))
            && (Defines(line) ==> forall r: Route ::
                  Means(r, line) <==> && r.src == src && r.dest == dest && Some(r.kind) == KindOf(kind)
                                      && forall m: Method :: Allows(r.methods, m) <==> Lists(list, m))
  {
    WordsAre(list, b1, src, b2, kind, b3, dest);
    KindIs(kind);
  }

  /** It answers the requests of its methods for exactly its path, and a proxy line also those
      for the paths that start with it. */
  lemma RouteLineAnswers(list: string, b1: string, src: string, b2: string, kind: string, b3: string, dest: string,
                         m: Method, path: string)
    requires Word(list) && Word(src) && Word(kind) && Word(dest) && Gap(b1) && Gap(b2) && Gap(b3)
    ensures var line := RouteLine(list, b1, src, b2, kind, b3, dest);
            Answers(line, m, path) <==> && Defines(line) && Lists(list, m)
                                        && (path == src || (SameName(kind, "proxy") && src <= path))
  {
    WordsAre(list, b1, src, b2, kind, b3, dest);
    KindIs(kind);
  }

  // ---------- method lists ----------

  /** A star and ALL, in any case of letters, stand for every method. */
  lemma EveryMethod(s: string, m: Method)
    ensures s == "*" || SameName(s, "ALL") ==> WellFormedMethods(s) && Lists(s, m)
  {
  }

  predicate Padding(pad: string) {
    forall i | 0 <= i < |pad| :: pad[i] == ' ' || pad[i] == '\t'
  }

  /** An entry of a list: no comma, and no padding in front. */
  predicate Entry(e: string) {
    Without(e, ',') && e != "" && e[0] != ' ' && e[0] != '\t'
  }

  lemma PaddedEntry(pad: string, e: string)
    requires Padding(pad) && Entry(e)
    ensures Tokens(pad + e, COMMA) == [pad + e] && Trimmed(pad + e) == e
  {
    TokensAre(pad + e, ',', "", COMMA);
    SkipInIs(pad + e, PADDING, |pad|);
    assert (pad + e)[|pad|..] == e;
  }

  /** Two entries with a comma between them. */
  lemma TwoEntries(a: string, pad: string, b: string)
    requires Entry(a) && Padding(pad) && Entry(b)
    ensures var ts := Tokens(a + "," + (pad + b), COMMA);
            |ts| == 2 && Trimmed(ts[0]) == a && Trimmed(ts[1]) == b
  {
    PaddedEntry(pad, b);
    TokensAre(a, ',', pad + b, COMMA);
    PaddedEntry("", a);
    assert "" + a == a;
  }

  /** A list of two names, with blanks or tabs behind the comma, allows those two methods. */
  lemma TwoMethods(x: Method, pad: string, y: Method, m: Method)
    requires Padding(pad)
    ensures var s := Name(x) + "," + (pad + Name(y));
            WellFormedMethods(s) && (Lists(s, m) <==> m == x || m == y)
  {
    NamePlain(x);
    NamePlain(y);
    ListOfTwo(Name(x) + "," + (pad + Name(y)), Name(x), pad, Name(y), m);
  }

  lemma ListOfTwo(s: string, a: string, pad: string, b: string, m: Method)
    requires Entry(a) && Padding(pad) && Entry(b) && |a| >= 3 && s == a + "," + (pad + b)
    ensures WellFormedMethods(s) <==> FromName(a).Some? && FromName(b).Some?
    ensures Lists(s, m) <==> FromName(a) == Some(m) || FromName(b) == Some(m)
  {
    TwoEntries(a, pad, b);
    LongList(s);
    OfTwo(s, m);
  }

  lemma LongList(s: string)
    requires |s| > 3
    ensures !Everything(s)
  {
  }

  lemma OfTwo(s: string, m: Method)
    requires |Tokens(s, COMMA)| == 2 && !Everything(s)
    ensures var a, b := FromName(Trimmed(Tokens(s, COMMA)[0])), FromName(Trimmed(Tokens(s, COMMA)[1]));
            (WellFormedMethods(s) <==> a.Some? && b.Some?) && (Lists(s, m) <==> a == Some(m) || b == Some(m))
  {
  }

  lemma NamePlain(m: Method)
    ensures FromName(Name(m)) == Some(m) && |Name(m)| >= 3 && Entry(Name(m))
  {
    NameRoundTrip(m);
  }

  /** A list with a name that is no method's is refused. */
  lemma UnknownMethod(x: Method, pad: string, name: string)
    requires Padding(pad) && Entry(name) && FromName(name).None?
    ensures !WellFormedMethods(Name(x) + "," + (pad + name))
  {
    NamePlain(x);
    ListOfTwo(Name(x) + "," + (pad + name), Name(x), pad, name, x);
  }
}
