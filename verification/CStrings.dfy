/** The C library functions on bytes and strings that the server relies on.

    A byte is a char; a C string is a sequence without '\0'. */
module CStrings {
  import opened Options

  predicate Without(s: string, c: char) {
    forall i | 0 <= i < |s| :: s[i] != c
  }

  lemma WithoutConcat(a: string, b: string, c: char)
    requires Without(a, c) && Without(b, c)
    ensures Without(a + b, c)
  {
  }

  // ---------- memchr, strchr ----------

  /** The index of the first c, or the length. */
  function Find(s: string, c: char): (k: nat)
    ensures k <= |s| && (k < |s| ==> s[k] == c)
    ensures forall i | 0 <= i < k :: s[i] != c
  {
    FindFrom(s, 0, c)
  }

  function FindFrom(s: string, i: nat, c: char): (k: nat)
    requires i <= |s|
    ensures i <= k <= |s| && (k < |s| ==> s[k] == c)
    ensures forall j | i <= j < k :: s[j] != c
    decreases |s| - i
  {
    if i == |s| || s[i] == c then i else FindFrom(s, i + 1, c)
  }

  lemma FindIs(s: string, c: char, k: nat)
    requires k <= |s| && (k < |s| ==> s[k] == c) && forall i | 0 <= i < k :: s[i] != c
    ensures Find(s, c) == k
  {
    var f := Find(s, c);
  }

  /** Cutting at the first separator. */
  lemma FindSep(a: string, c: char, b: string)
    requires Without(a, c)
    ensures Find(a + [c] + b, c) == |a|
    ensures (a + [c] + b)[..|a|] == a && (a + [c] + b)[|a| + 1..] == b
  {
    FindIs(a + [c] + b, c, |a|);
  }

  /** The part of a buffer a C string function sees. */
  function CStr(s: string): (r: string)
    ensures r <= s && Without(r, '\0') && (|r| < |s| ==> s[|r|] == '\0')
    ensures Without(s, '\0') ==> r == s
  {
    s[..Find(s, '\0')]
  }

  // ---------- memmem ----------

  predicate HasAt(s: string, i: nat, pat: string) {
    i + |pat| <= |s| && s[i..i + |pat|] == pat
  }

  /** The first place where pat occurs. */
  function FindSub(s: string, pat: string): (r: Option<nat>)
    ensures r.Some? ==> HasAt(s, r.value, pat) && forall j | 0 <= j < r.value :: !HasAt(s, j, pat)
    ensures r.None? ==> forall j | 0 <= j <= |s| :: !HasAt(s, j, pat)
  {
    SearchFrom(s, 0, pat)
  }

  function SearchFrom(s: string, i: nat, pat: string): (r: Option<nat>)
    requires i <= |s|
    ensures r.Some? ==> i <= r.value && HasAt(s, r.value, pat) && forall j | i <= j < r.value :: !HasAt(s, j, pat)
    ensures r.None? ==> forall j | i <= j <= |s| :: !HasAt(s, j, pat)
    decreases |s| - i
  {
    if HasAt(s, i, pat) then Some(i)
    else if i == |s| then None
    else SearchFrom(s, i + 1, pat)
  }

  lemma FindSubIs(s: string, pat: string, k: nat)
    requires HasAt(s, k, pat) && forall j | 0 <= j < k :: !HasAt(s, j, pat)
    ensures FindSub(s, pat) == Some(k)
  {
    var r := FindSub(s, pat);
    assert k <= |s|;
  }

  lemma CharAt(s: string, i: nat, pat: string, k: nat)
    requires k < |pat|
    ensures HasAt(s, i, pat) ==> s[i + k] == pat[k]
  {
    if HasAt(s, i, pat) {
      assert s[i + k] == s[i..i + |pat|][k];
    }
  }

  /** A place in the back part is the same place in the whole. */
  lemma HasAtShift(a: string, b: string, j: nat, pat: string)
    requires |a| <= j
    ensures HasAt(a + b, j, pat) <==> HasAt(b, j - |a|, pat)
  {
    if j + |pat| <= |a + b| {
      assert (a + b)[j..j + |pat|] == b[j - |a|..j - |a| + |pat|];
    }
  }

  /** What follows does not disturb what was found. */
  lemma FindSubExtends(a: string, b: string, pat: string)
    requires FindSub(a, pat).Some?
    ensures FindSub(a + b, pat) == FindSub(a, pat)
  {
    var k := FindSub(a, pat).value;
    assert (a + b)[k..k + |pat|] == a[k..k + |pat|];
    forall j | 0 <= j < k
      ensures !HasAt(a + b, j, pat)
    {
      assert !HasAt(a, j, pat);
      assert (a + b)[j..j + |pat|] == a[j..j + |pat|];
    }
    FindSubIs(a + b, pat, k);
  }

  /** Skips a front part in which no occurrence starts. */
  lemma FindSubSkip(a: string, b: string, pat: string)
    requires forall j | 0 <= j < |a| :: !HasAt(a + b, j, pat)
    ensures FindSub(b, pat).Some? ==> FindSub(a + b, pat) == Some(|a| + FindSub(b, pat).value)
    ensures FindSub(b, pat).None? ==> FindSub(a + b, pat).None?
  {
    var r := FindSub(b, pat);
    if r.Some? {
      HasAtShift(a, b, |a| + r.value, pat);
      forall j | |a| <= j < |a| + r.value
        ensures !HasAt(a + b, j, pat)
      {
        HasAtShift(a, b, j, pat);
      }
      FindSubIs(a + b, pat, |a| + r.value);
    } else {
      forall j | |a| <= j <= |a + b|
        ensures !HasAt(a + b, j, pat)
      {
        HasAtShift(a, b, j, pat);
      }
    }
  }

  /** A pattern found where a front part without it ends. */
  lemma FindSubAfter(a: string, pat: string, b: string)
    requires forall j | 0 <= j < |a| :: !HasAt(a + (pat + b), j, pat)
    ensures FindSub(a + (pat + b), pat) == Some(|a|)
    ensures (a + (pat + b))[|a| + |pat|..] == b
  {
    var s := a + (pat + b);
    assert s[|a|..|a| + |pat|] == pat;
    FindSubIs(s, pat, |a|);
  }

  // ---------- strtok ----------

  function SkipIn(s: string, delims: set<char>): (k: nat)
    ensures k <= |s| && (k < |s| ==> s[k] !in delims)
    ensures forall i | 0 <= i < k :: s[i] in delims
  {
    SkipInFrom(s, 0, delims)
  }

  function SkipInFrom(s: string, i: nat, delims: set<char>): (k: nat)
    requires i <= |s|
    ensures i <= k <= |s| && (k < |s| ==> s[k] !in delims)
    ensures forall j | i <= j < k :: s[j] in delims
    decreases |s| - i
  {
    if i < |s| && s[i] in delims then SkipInFrom(s, i + 1, delims) else i
  }

  function SkipOut(s: string, delims: set<char>): (k: nat)
    ensures k <= |s| && (k < |s| ==> s[k] in delims)
    ensures forall i | 0 <= i < k :: s[i] !in delims
  {
    SkipOutFrom(s, 0, delims)
  }

  function SkipOutFrom(s: string, i: nat, delims: set<char>): (k: nat)
    requires i <= |s|
    ensures i <= k <= |s| && (k < |s| ==> s[k] in delims)
    ensures forall j | i <= j < k :: s[j] !in delims
    decreases |s| - i
  {
    if i < |s| && s[i] !in delims then SkipOutFrom(s, i + 1, delims) else i
  }

  /** A token found by strtok: where it starts and how long it is. */
  datatype Token = NoToken | Token(off: nat, len: nat)

  /** One call of strtok on the string s. */
  function Strtok(s: string, delims: set<char>): (t: Token)
    ensures t.Token? ==> t.len > 0 && t.off + t.len <= |s|
  {
    var off := SkipIn(s, delims);
    if off == |s| then NoToken else Token(off, SkipOutFrom(s, off, delims) - off)
  }

  /** Where the next call continues: behind the delimiter that ended the token. */
  function After(s: string, t: Token): (k: nat)
    requires t.Token? && t.off + t.len <= |s|
    ensures k <= |s| && t.off + t.len <= k
  {
    if t.off + t.len < |s| then t.off + t.len + 1 else |s|
  }

  function Text(s: string, t: Token): string
    requires t.Token? && t.off + t.len <= |s|
  {
    s[t.off..t.off + t.len]
  }

  /** The tokens that successive calls yield. */
  function Tokens(s: string, delims: set<char>): seq<string>
    decreases |s|
  {
    var t := Strtok(s, delims);
    if t.NoToken? then [] else [Text(s, t)] + Tokens(s[After(s, t)..], delims)
  }

  lemma TokensUnfold(s: string, delims: set<char>, t: Token)
    requires Strtok(s, delims) == t && t.Token?
    ensures Tokens(s, delims) == [Text(s, t)] + Tokens(s[After(s, t)..], delims)
  {
  }

  /** A string that starts with a token of n characters. */
  lemma StrtokIs(s: string, delims: set<char>, n: nat)
    requires 0 < n <= |s| && (forall i | 0 <= i < n :: s[i] !in delims) && (n < |s| ==> s[n] in delims)
    ensures Strtok(s, delims) == Token(0, n)
  {
    SkipInIs(s, delims, 0);
    var end := SkipOutFrom(s, 0, delims);
  }

  /** What tokens are: delimiters in front do not matter, a word up to a delimiter is a token,
      and so is a word at the end. */
  lemma TokensAre(word: string, c: char, rest: string, delims: set<char>)
    requires c in delims && forall i | 0 <= i < |word| :: word[i] !in delims
    ensures Tokens("", delims) == []
    ensures Tokens([c] + rest, delims) == Tokens(rest, delims)
    ensures word != "" ==> Tokens(word + [c] + rest, delims) == [word] + Tokens(rest, delims)
    ensures word != "" ==> Tokens(word, delims) == [word]
  {
    DelimiterSkipped(c, rest, delims);
    if word != "" {
      WordFirst(word, c, rest, delims);
      StrtokIs(word, delims, |word|);
      TokensUnfold(word, delims, Token(0, |word|));
      assert Text(word, Token(0, |word|)) == word && word[|word|..] == "";
    }
  }

  lemma WordFirst(word: string, c: char, rest: string, delims: set<char>)
    requires word != "" && c in delims && forall i | 0 <= i < |word| :: word[i] !in delims
    ensures Tokens(word + [c] + rest, delims) == [word] + Tokens(rest, delims)
  {
    var s := word + [c] + rest;
    StrtokIs(s, delims, |word|);
    TokensUnfold(s, delims, Token(0, |word|));
    assert Text(s, Token(0, |word|)) == word && s[|word| + 1..] == rest;
  }

  lemma DelimiterSkipped(c: char, rest: string, delims: set<char>)
    requires c in delims
    ensures Tokens([c] + rest, delims) == Tokens(rest, delims)
  {
    var s, t := [c] + rest, Strtok(rest, delims);
    StrtokShift(c, rest, delims);
    if t.Token? {
      var u := Token(1 + t.off, t.len);
      TokensUnfold(s, delims, u);
      TokensUnfold(rest, delims, t);
      ShiftedToken(c, rest, t);
    }
  }

  lemma StrtokShift(c: char, rest: string, delims: set<char>)
    requires c in delims
    ensures var t := Strtok(rest, delims);
            Strtok([c] + rest, delims) == if t.NoToken? then NoToken else Token(1 + t.off, t.len)
  {
    var off := SkipIn(rest, delims);
    SkipInIs([c] + rest, delims, 1 + off);
    SkipOutShift(c, rest, off, delims);
  }

  lemma ShiftedToken(c: char, rest: string, t: Token)
    requires t.Token? && t.off + t.len <= |rest|
    ensures var s, u := [c] + rest, Token(1 + t.off, t.len);
            Text(s, u) == Text(rest, t) && s[After(s, u)..] == rest[After(rest, t)..]
  {
  }

  lemma {:induction false} SkipOutShift(c: char, rest: string, i: nat, delims: set<char>)
    requires i <= |rest|
    ensures SkipOutFrom([c] + rest, i + 1, delims) == SkipOutFrom(rest, i, delims) + 1
    decreases |rest| - i
  {
    if i < |rest| && rest[i] !in delims { SkipOutShift(c, rest, i + 1, delims); }
  }

  /** One round of a strtok loop: done is what was found, all is what there is to find. */
  lemma NextToken(all: seq<string>, done: seq<string>, rest: string, delims: set<char>, t: Token)
    requires Strtok(rest, delims) == t && done + Tokens(rest, delims) == all
    ensures if t.NoToken? then done == all
            else && |done| < |all| && all[|done|] == Text(rest, t)
                 && done + [Text(rest, t)] + Tokens(rest[After(rest, t)..], delims) == all
  {
    if t.Token? {
      TokensUnfold(rest, delims, t);
      Regroup(all, done, Text(rest, t), Tokens(rest[After(rest, t)..], delims));
    }
  }

  lemma Regroup(all: seq<string>, done: seq<string>, word: string, tail: seq<string>)
    requires done + ([word] + tail) == all
    ensures |done| < |all| && all[|done|] == word && done + [word] + tail == all
  {
  }

  // ---------- strcasecmp ----------

  function LowerChar(c: char): char {
    if 'A' <= c <= 'Z' then (c as int + 32) as char else c
  }

  function Lower(s: string): (r: string)
    ensures |r| == |s|
  {
    seq(|s|, i requires 0 <= i < |s| => LowerChar(s[i]))
  }

  predicate SameName(a: string, b: string) {
    Lower(a) == Lower(b)
  }

  /** The same letters, whatever their case. */
  lemma SameNameIff(a: string, b: string)
    ensures SameName(a, b) <==> |a| == |b| && forall i | 0 <= i < |a| :: SameLetter(a[i], b[i])
  {
    if |a| == |b| {
      forall i | 0 <= i < |a|
        ensures Lower(a)[i] == Lower(b)[i] <==> SameLetter(a[i], b[i])
      {
      }
      assert SameName(a, b) ==> forall i | 0 <= i < |a| :: Lower(a)[i] == Lower(b)[i];
    }
  }

  predicate SameLetter(x: char, y: char) {
    x == y || ('A' <= x <= 'Z' && y as int == x as int + 32) || ('A' <= y <= 'Z' && x as int == y as int + 32)
  }

  // ---------- decimal numbers ----------

  const ULONG_MAX: nat := 0xFFFF_FFFF_FFFF_FFFF
  const INT_MAX: nat := 0x7FFF_FFFF
  const INT_MIN: int := 0 - 0x8000_0000

  predicate IsDigit(c: char) {
    '0' <= c <= '9'
  }

  function Digit(d: nat): (c: char)
    requires d < 10
    ensures IsDigit(c) && DigitValue(c) == d
  {
    ('0' as int + d) as char
  }

  /** What "%zu" prints. */
  function Dec(n: nat): (s: string)
    ensures |s| > 0 && forall i | 0 <= i < |s| :: IsDigit(s[i])
  {
    if n < 10 then [Digit(n)] else Dec(n / 10) + [Digit(n % 10)]
  }

  function DigitRun(s: string): (k: nat)
    ensures k <= |s| && (k < |s| ==> !IsDigit(s[k]))
    ensures forall i | 0 <= i < k :: IsDigit(s[i])
  {
    DigitRunFrom(s, 0)
  }

  function DigitRunFrom(s: string, i: nat): (k: nat)
    requires i <= |s|
    ensures i <= k <= |s| && (k < |s| ==> !IsDigit(s[k]))
    ensures forall j | i <= j < k :: IsDigit(s[j])
    decreases |s| - i
  {
    if i < |s| && IsDigit(s[i]) then DigitRunFrom(s, i + 1) else i
  }

  function DigitValue(c: char): (d: nat)
    requires IsDigit(c)
    ensures d < 10
  {
    c as int - '0' as int
  }

  function Value(s: string): nat
    requires forall i | 0 <= i < |s| :: IsDigit(s[i])
  {
    if s == "" then 0 else 10 * Value(s[..|s| - 1]) + DigitValue(s[|s| - 1])
  }

  predicate IsSpace(c: char) {
    c == ' ' || c == '\t' || c == '\n' || c == '\r' || c == '\U{0B}' || c == '\U{0C}'
  }

  const SPACES: set<char> := {' ', '\t', '\n', '\r', '\U{0B}', '\U{0C}'}

  /** strtoul in base ten: white space, a sign, digits; too large a number saturates. */
  function StrToUL(s: string): (n: nat)
    ensures n <= ULONG_MAX
  {
    Signed(s[SkipIn(s, SPACES)..])
  }

  function Signed(t: string): (n: nat)
    ensures n <= ULONG_MAX
  {
    if t != "" && t[0] == '-' then
      var v := Leading(t[1..]);
      if v > ULONG_MAX then ULONG_MAX else if v > 0 then ULONG_MAX + 1 - v else 0
    else
      var v := Leading(if t != "" && t[0] == '+' then t[1..] else t);
      if v > ULONG_MAX then ULONG_MAX else v
  }

  /** atoi, whose result is not bounded here. */
  function Atoi(s: string): int {
    var t := s[SkipIn(s, SPACES)..];
    if t != "" && t[0] == '-' then 0 - Leading(t[1..])
    else Leading(if t != "" && t[0] == '+' then t[1..] else t)
  }

  /** The number that the leading digits of s spell. */
  function Leading(s: string): nat {
    Value(s[..DigitRun(s)])
  }

  lemma {:induction false} ValueOfDec(n: nat)
    ensures Value(Dec(n)) == n
  {
    if n >= 10 {
      ValueOfDec(n / 10);
      assert Dec(n)[..|Dec(n)| - 1] == Dec(n / 10);
    }
  }

  lemma DigitRunIs(s: string, k: nat)
    requires k <= |s| && (forall i | 0 <= i < k :: IsDigit(s[i])) && (k < |s| ==> !IsDigit(s[k]))
    ensures DigitRun(s) == k
  {
    var r := DigitRun(s);
  }

  /** Printing a number and reading it back, behind spaces and before anything that is no
      digit, gives the number. */
  lemma NumberRoundTrip(n: nat, before: string, after: string)
    requires n <= ULONG_MAX
    requires forall i | 0 <= i < |before| :: before[i] in SPACES
    requires after != "" ==> !IsDigit(after[0])
    ensures StrToUL(before + Dec(n) + after) == n
  {
    var s, d := before + Dec(n) + after, Dec(n);
    assert s[|before|] == d[0];
    SkipInIs(s, SPACES, |before|);
    assert s[|before|..] == d + after;
    SignedDec(n, after);
  }

  /** strtoul and atoi on blanks, a sign, digits and anything that is no digit. A number that
      does not fit saturates in strtoul; a negative one wraps. */
  lemma NumbersAre(before: string, digits: string, after: string)
    requires forall i | 0 <= i < |before| :: IsSpace(before[i])
    requires digits != "" && (forall i | 0 <= i < |digits| :: IsDigit(digits[i]))
    requires after != "" ==> !IsDigit(after[0])
    ensures var v := Value(digits);
            && StrToUL(before + (digits + after)) == (if v > ULONG_MAX then ULONG_MAX else v)
            && StrToUL(before + ("+" + (digits + after))) == (if v > ULONG_MAX then ULONG_MAX else v)
            && StrToUL(before + ("-" + (digits + after)))
            == (if v > ULONG_MAX then ULONG_MAX else if v == 0 then 0 else ULONG_MAX + 1 - v)
            && Atoi(before + (digits + after)) == v && Atoi(before + ("+" + (digits + after))) == v
            && Atoi(before + ("-" + (digits + after))) == 0 - v
  {
    LeadingIs(digits, after);
    Unsigned(before, digits + after);
    Plus(before, digits + after);
    Minus(before, digits + after);
  }

  lemma Unsigned(before: string, t: string)
    requires (forall i | 0 <= i < |before| :: IsSpace(before[i])) && t != "" && IsDigit(t[0])
    ensures StrToUL(before + t) == (if Leading(t) > ULONG_MAX then ULONG_MAX else Leading(t))
    ensures Atoi(before + t) == Leading(t)
  {
    BlanksSkipped(before, t);
  }

  lemma Plus(before: string, t: string)
    requires (forall i | 0 <= i < |before| :: IsSpace(before[i]))
    ensures StrToUL(before + ("+" + t)) == (if Leading(t) > ULONG_MAX then ULONG_MAX else Leading(t))
    ensures Atoi(before + ("+" + t)) == Leading(t)
  {
    BlanksSkipped(before, "+" + t);
    assert ("+" + t)[1..] == t;
  }

  lemma Minus(before: string, t: string)
    requires (forall i | 0 <= i < |before| :: IsSpace(before[i]))
    ensures var v := Leading(t);
            var n := if v > ULONG_MAX then ULONG_MAX else if v == 0 then 0 else ULONG_MAX + 1 - v;
            StrToUL(before + ("-" + t)) == n
    ensures Atoi(before + ("-" + t)) == 0 - Leading(t)
  {
    BlanksSkipped(before, "-" + t);
    assert ("-" + t)[1..] == t;
  }

  lemma BlanksSkipped(before: string, t: string)
    requires (forall i | 0 <= i < |before| :: IsSpace(before[i])) && t != "" && !IsSpace(t[0])
    ensures var s := before + t; SkipIn(s, SPACES) == |before| && s[|before|..] == t
  {
    SkipInIs(before + t, SPACES, |before|);
  }

  lemma LeadingIs(digits: string, after: string)
    requires (forall i | 0 <= i < |digits| :: IsDigit(digits[i])) && (after != "" ==> !IsDigit(after[0]))
    ensures Leading(digits + after) == Value(digits)
  {
    DigitRunIs(digits + after, |digits|);
    assert (digits + after)[..|digits|] == digits;
  }

  /** What is no number reads as zero. */
  lemma NoNumber(before: string, after: string)
    requires forall i | 0 <= i < |before| :: IsSpace(before[i])
    requires after != "" ==> !IsSpace(after[0]) && !IsDigit(after[0]) && after[0] !in {'+', '-'}
    ensures StrToUL(before + after) == 0 && Atoi(before + after) == 0
  {
    SkipInIs(before + after, SPACES, |before|);
    assert (before + after)[|before|..] == after;
    LeadingIs("", after);
    assert "" + after == after;
  }

  /** Digits count in tens. */
  lemma ValueIs(digits: string, c: char)
    requires (forall i | 0 <= i < |digits| :: IsDigit(digits[i])) && IsDigit(c)
    ensures Value("") == 0 && Value(digits + [c]) == 10 * Value(digits) + (c as int - '0' as int)
  {
    assert (digits + [c])[..|digits|] == digits;
  }

  lemma SignedDec(n: nat, after: string)
    requires n <= ULONG_MAX && (after != "" ==> !IsDigit(after[0]))
    ensures Signed(Dec(n) + after) == n
  {
    assert (Dec(n) + after)[0] == Dec(n)[0];
    LeadingDec(n, after);
  }

  lemma LeadingDec(n: nat, after: string)
    requires after != "" ==> !IsDigit(after[0])
    ensures Leading(Dec(n) + after) == n
  {
    var d := Dec(n);
    DigitRunIs(d + after, |d|);
    assert (d + after)[..|d|] == d;
    ValueOfDec(n);
  }

  lemma SkipInIs(s: string, delims: set<char>, k: nat)
    requires k <= |s| && (forall i | 0 <= i < k :: s[i] in delims) && (k < |s| ==> s[k] !in delims)
    ensures SkipIn(s, delims) == k
  {
    var r := SkipIn(s, delims);
  }

  lemma SkipOutIs(s: string, delims: set<char>, k: nat)
    requires k <= |s| && (forall i | 0 <= i < k :: s[i] !in delims) && (k < |s| ==> s[k] in delims)
    ensures SkipOut(s, delims) == k
  {
    var r := SkipOut(s, delims);
  }

  // ---------- lines of a text ----------

  /** The lines of a text that end in a newline. */
  function TextLines(text: string): seq<string>
    decreases |text|
  {
    var k := Find(text, '\n');
    if k == |text| then [] else [text[..k]] + TextLines(text[k + 1..])
  }

  /** An empty line or a comment. */
  predicate Skipped(line: string) {
    line == "" || line[0] == '#'
  }

  lemma TextLinesUnfold(text: string, k: nat)
    requires k == Find(text, '\n') < |text|
    ensures TextLines(text) == [text[..k]] + TextLines(text[k + 1..])
  {
  }

  lemma NextLine(all: seq<string>, done: seq<string>, rest: string)
    requires done + TextLines(rest) == all
    ensures var k := Find(rest, '\n');
            if k == |rest| then done == all else done + [rest[..k]] + TextLines(rest[k + 1..]) == all
  {
    var k := Find(rest, '\n');
    if k < |rest| {
      TextLinesUnfold(rest, k);
      Regroup(all, done, rest[..k], TextLines(rest[k + 1..]));
    }
  }
}
