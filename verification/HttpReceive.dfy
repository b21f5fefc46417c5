/** The receive loop: it collects what arrives until a message is complete.

    The loop is modelled twice: as meant, with the start of the body as an offset, and as
    written, with a pointer into a buffer that realloc may move. */
module HttpReceive {
  import opened Options
  import opened CStrings
  import opened HttpMessages

  const LENGTH_FIELD := "Content-Length:"

  /** Where the body starts, once the blank line behind the head has arrived. */
  function HeadEnd(p: string): Option<nat> {
    match FindSub(p, BLANK)
    case Some(i) => Some(i + 4)
    case None => None
  }

  /** The number behind the first Content-Length field of a head. */
  function Announced(head: string): nat {
    match FindSub(head, LENGTH_FIELD)
    case Some(j) => StrToUL(head[j + 15..])
    case None => 0
  }

  function Expected(p: string, expectBody: bool): nat
    requires HeadEnd(p).Some?
  {
    if expectBody then Announced(p[..HeadEnd(p).value]) else 0
  }

  predicate Complete(p: string, expectBody: bool) {
    HeadEnd(p).Some? && |p| - HeadEnd(p).value >= Expected(p, expectBody)
  }

  /** More bytes move neither the end of the head nor the length it announces. */
  lemma HeadIsStable(p: string, q: string, expectBody: bool)
    requires p <= q && HeadEnd(p).Some?
    ensures HeadEnd(q) == HeadEnd(p) && Expected(q, expectBody) == Expected(p, expectBody)
  {
    assert q == p + q[|p|..];
    FindSubExtends(p, q[|p|..], BLANK);
    var e := HeadEnd(p).value;
    assert p[..e] == q[..e];
  }

  function Min(a: nat, b: nat): nat {
    if a < b then a else b
  }

  // ---------- what arrives ----------

  /** Bytes in the buffer, and how many it can hold. */
  datatype Fill = Fill(len: nat, cap: nat)

  /** After k calls, the j-th of which finds avail(j) bytes of the `total` that will arrive in
      all. The buffer doubles when less than a kilobyte is left. */
  function Filled(total: nat, avail: nat -> nat, k: nat): (f: Fill)
    ensures f.len <= total && f.len + 1024 <= f.cap && 4096 <= f.cap
  {
    if k == 0 then Fill(0, 4096)
    else
      var f := Filled(total, avail, k - 1);
      var len := f.len + Min(avail(k - 1), Min(f.cap - f.len, total - f.len));
      Fill(len, if f.cap - len < 1024 then 2 * f.cap else f.cap)
  }

  function Arrived(stream: string, avail: nat -> nat, k: nat): string {
    stream[..Filled(|stream|, avail, k).len]
  }

  /** What there is to know after some calls: the bytes received, the size of the buffer,
      where the body starts and how long it is to be. */
  datatype Seen = Seen(text: string, cap: nat, start: Option<nat>, need: nat) {
    predicate Done() {
      start.Some? && |text| - start.value >= need
    }
  }

  function See(stream: string, avail: nat -> nat, expectBody: bool, k: nat): Seen {
    var p := Arrived(stream, avail, k);
    Seen(p, Filled(|stream|, avail, k).cap, HeadEnd(p), if HeadEnd(p).Some? then Expected(p, expectBody) else 0)
  }

  /** The course of a connection on which `stream` will arrive in all. */
  function Course(stream: string, avail: nat -> nat, expectBody: bool): nat -> Seen {
    (k: nat) => See(stream, avail, expectBody, k)
  }

  lemma ArrivedGrows(stream: string, avail: nat -> nat, k: nat)
    ensures Arrived(stream, avail, k) <= Arrived(stream, avail, k + 1) <= stream
    ensures Arrived(stream, avail, k) == Arrived(stream, avail, k + 1)
       <==> avail(k) == 0 || Arrived(stream, avail, k) == stream
  {
  }

  // ---------- where the loop ends ----------

  /** The message is not complete after k calls, and one more finds something. */
  predicate GoesOn(c: nat -> Seen, k: nat) {
    !c(k).Done() && |c(k).text| < |c(k + 1).text|
  }

  /** The loop makes k successful calls at least. */
  predicate Makes(c: nat -> Seen, k: nat) {
    k == 0 || (Makes(c, k - 1) && GoesOn(c, k - 1))
  }

  /** It stops after k: at the first that completes the message, or when the next one finds
      nothing. */
  predicate StopsAfter(c: nat -> Seen, k: nat) {
    Makes(c, k) && !GoesOn(c, k)
  }

  lemma {:induction false} MakesFewer(c: nat -> Seen, j: nat, k: nat)
    requires j <= k
    ensures Makes(c, k) ==> Makes(c, j)
    decreases k
  {
    if j < k { MakesFewer(c, j, k - 1); }
  }

  // ---------- one call ----------

  /** Looks for the end of the head in a longer prefix, unless it was found before. */
  method Look(p: string, ghost was: string, expectBody: bool, bodyStart: Option<nat>, contentLength: nat)
    returns (start: Option<nat>, length: nat)
    requires was <= p && bodyStart == HeadEnd(was)
    requires contentLength == if bodyStart.Some? then Expected(was, expectBody) else 0
    ensures start == HeadEnd(p) && length == if start.Some? then Expected(p, expectBody) else 0
    ensures bodyStart.Some? ==> start == bodyStart
  {
    start, length := bodyStart, contentLength;
    if start.None? {
      start := HeadEnd(p);
      if start.Some? && expectBody {
        length := Announced(p[..start.value]);
      }
    } else {
      HeadIsStable(was, p, expectBody);
    }
  }

  /** One call of recv: appends what call k finds. */
  method Recv(stream: string, avail: nat -> nat, k: nat, buf: array<char>, len: nat) returns (n: nat)
    requires Fill(len, buf.Length) == Filled(|stream|, avail, k) && buf[..len] == Arrived(stream, avail, k)
    modifies buf
    ensures len + n == Filled(|stream|, avail, k + 1).len <= buf.Length
    ensures buf[..len + n] == Arrived(stream, avail, k + 1)
  {
    n := Min(avail(k), Min(buf.Length - len, |stream| - len));
    forall i | 0 <= i < n { buf[len + i] := stream[len + i]; }
    assert buf[..len] == stream[..len];
  }

  /** The buffer, doubled when less than a kilobyte is left; doubling moves it. */
  method Room(buf: array<char>, len: nat) returns (r: array<char>)
    requires len <= buf.Length && 1024 <= buf.Length
    ensures if buf.Length - len < 1024 then fresh(r) && r.Length == 2 * buf.Length else r == buf
    ensures len <= r.Length && r[..len] == buf[..len]
  {
    r := buf;
    if buf.Length - len < 1024 {
      r := new char[2 * buf.Length];
      forall i | 0 <= i < len { r[i] := buf[i]; }
    }
  }

  /** c is the course of this connection. */
  ghost predicate Follows(c: nat -> Seen, stream: string, avail: nat -> nat, expectBody: bool) {
    forall k: nat {:trigger See(stream, avail, expectBody, k)} :: c(k) == See(stream, avail, expectBody, k)
  }

  /** The buffer and the variables of the loop hold what there is to know after k calls. */
  ghost predicate Holds(c: nat -> Seen, k: nat, buf: array<char>, len: nat, start: Option<nat>, length: nat)
    reads buf
  {
    && len <= buf.Length && buf[..len] == c(k).text && buf.Length == c(k).cap
    && start == c(k).start && length == c(k).need
  }

  /** A call, and the search for the end of the head. */
  method Hear(ghost c: nat -> Seen, stream: string, avail: nat -> nat, expectBody: bool, k: nat,
              buf: array<char>, len: nat, bodyStart: Option<nat>, contentLength: nat)
    returns (n: nat, start: Option<nat>, length: nat)
    requires Follows(c, stream, avail, expectBody) && Holds(c, k, buf, len, bodyStart, contentLength)
    modifies buf
    ensures len + n <= |stream| && len + n <= buf.Length && buf[..len + n] == c(k + 1).text
    ensures start == c(k + 1).start && length == c(k + 1).need && (bodyStart.Some? ==> start == bodyStart)
    ensures n == 0 ==> c(k + 1).text == c(k).text
    ensures 1024 <= buf.Length && c(k + 1).cap == if buf.Length - (len + n) < 1024 then 2 * buf.Length else buf.Length
  {
    assert c(k) == See(stream, avail, expectBody, k) && c(k + 1) == See(stream, avail, expectBody, k + 1);
    n := Recv(stream, avail, k, buf, len);
    ArrivedGrows(stream, avail, k);
    start, length := Look(buf[..len + n], Arrived(stream, avail, k), expectBody, bodyStart, contentLength);
  }

  // ---------- the loop with an offset ----------

  method Collect(ghost c: nat -> Seen, stream: string, avail: nat -> nat, expectBody: bool)
    returns (msg: string, k: nat)
    requires Follows(c, stream, avail, expectBody)
    ensures StopsAfter(c, k) && msg == c(k).text
  {
    var len, calls := 0, 0;
    var buf := new char[4096];
    var bodyStart: Option<nat>, contentLength: nat := None, 0;
    NothingYet(c, stream, avail, expectBody);
    while true
      invariant fresh(buf) && Holds(c, calls, buf, len, bodyStart, contentLength)
      invariant len <= |stream| && Makes(c, calls) && !c(calls).Done()
      decreases |stream| - len
    {
      var n;
      n, bodyStart, contentLength := Hear(c, stream, avail, expectBody, calls, buf, len, bodyStart, contentLength);
      if n == 0 { break; }
      calls, len := calls + 1, len + n;
      if bodyStart.Some? && len - bodyStart.value >= contentLength { break; }
      buf := Room(buf, len);
    }
    msg, k := buf[..len], calls;
  }

  lemma NothingYet(c: nat -> Seen, stream: string, avail: nat -> nat, expectBody: bool)
    requires Follows(c, stream, avail, expectBody)
    ensures c(0) == Seen("", 4096, None, 0)
  {
    assert c(0) == See(stream, avail, expectBody, 0);
  }

  /** Receives one message, with k successful calls; a call that finds nothing, because of an
      error or because nothing is there yet, ends the loop. */
  method Receive(stream: string, avail: nat -> nat, expectBody: bool) returns (msg: string, k: nat)
    ensures StopsAfter(Course(stream, avail, expectBody), k) && msg == Arrived(stream, avail, k)
  {
    msg, k := Collect(Course(stream, avail, expectBody), stream, avail, expectBody);
  }

  /** The message is complete, the next call finds nothing, or all there is has arrived. */
  lemma WhyItStops(stream: string, avail: nat -> nat, expectBody: bool, k: nat)
    requires StopsAfter(Course(stream, avail, expectBody), k)
    ensures Complete(Arrived(stream, avail, k), expectBody) || avail(k) == 0 || Arrived(stream, avail, k) == stream
  {
    var c := Course(stream, avail, expectBody);
    ArrivedGrows(stream, avail, k);
    assert c(k) == See(stream, avail, expectBody, k) && c(k + 1) == See(stream, avail, expectBody, k + 1);
  }

  // ---------- the loop as written ----------

  /** The code keeps the start of the body as a pointer into the buffer. */
  datatype Pointer = Null | Into(base: array<char>, off: nat)

  function Offset(p: Pointer): Option<nat> {
    if p.Null? then None else Some(p.off)
  }

  /** Dangling: the loop compared a pointer into a buffer that had been moved. What happens
      then is undefined. */
  datatype Heard = Got(msg: string) | Dangling

  /** Call k left the head in the buffer, and the buffer was moved behind it. */
  predicate MovesHead(c: nat -> Seen, k: nat) {
    c(k + 1).start.Some? && c(k + 1).cap != c(k).cap
  }

  /** One of the first k calls did. */
  predicate Moved(c: nat -> Seen, k: nat) {
    k > 0 && (MovesHead(c, k - 1) || Moved(c, k - 1))
  }

  /** The loop makes a successful call after one that moved the head. */
  predicate DanglesAt(c: nat -> Seen, k: nat) {
    Moved(c, k) && Makes(c, k + 1)
  }

  ghost predicate Dangles(c: nat -> Seen) {
    exists k: nat :: DanglesAt(c, k)
  }

  lemma {:induction false} MovedLater(c: nat -> Seen, j: nat, k: nat)
    requires j <= k
    ensures Moved(c, j) ==> Moved(c, k)
    decreases k
  {
    if j < k { MovedLater(c, j, k - 1); }
  }

  lemma NeverDangles(c: nat -> Seen, k: nat)
    requires StopsAfter(c, k) && (k > 0 ==> !Moved(c, k - 1))
    ensures !Dangles(c)
  {
    forall j: nat
      ensures !DanglesAt(c, j)
    {
      if j < k {
        MovedLater(c, j, k - 1);
      } else {
        MakesFewer(c, k + 1, j + 1);
      }
    }
  }

  /** The pointer is into the buffer unless that has been moved. */
  ghost predicate Points(p: Pointer, buf: array<char>, moved: bool) {
    if p.Null? then !moved else (p.base != buf <==> moved)
  }

  method Follow(ghost c: nat -> Seen, stream: string, avail: nat -> nat, expectBody: bool)
    returns (heard: Heard, k: nat)
    requires Follows(c, stream, avail, expectBody)
    ensures heard.Dangling? <==> Dangles(c)
    ensures heard.Got? ==> StopsAfter(c, k) && heard.msg == c(k).text
  {
    var len, calls := 0, 0;
    var buf := new char[4096];
    var bodyStart: Pointer, contentLength: nat := Null, 0;
    NothingYet(c, stream, avail, expectBody);
    while true
      invariant fresh(buf) && Holds(c, calls, buf, len, Offset(bodyStart), contentLength)
      invariant len <= |stream| && Makes(c, calls) && !c(calls).Done()
      invariant Points(bodyStart, buf, Moved(c, calls)) && (calls > 0 ==> !Moved(c, calls - 1))
      decreases |stream| - len
    {
      var n, start;
      n, start, contentLength := Hear(c, stream, avail, expectBody, calls, buf, len, Offset(bodyStart), contentLength);
      if n == 0 { break; }
      if bodyStart.Into? && bodyStart.base != buf {
        assert DanglesAt(c, calls);
        return Dangling, calls;
      }
      calls, len := calls + 1, len + n;
      if bodyStart.Null? && start.Some? {
        bodyStart := Into(buf, start.value);
      }
      if start.Some? && len - start.value >= contentLength { break; }
      buf := Room(buf, len);
    }
    NeverDangles(c, calls);
    heard, k := Got(buf[..len]), calls;
  }

  /** The loop with the pointer the code keeps: it runs into a dangling pointer exactly if the
      bytes arrive so that it makes a successful call after the head was moved, and receives
      the same message otherwise. */
  method ReceiveByPointer(stream: string, avail: nat -> nat, expectBody: bool) returns (heard: Heard, k: nat)
    ensures heard.Dangling? <==> Dangles(Course(stream, avail, expectBody))
    ensures heard.Got? ==> StopsAfter(Course(stream, avail, expectBody), k) && heard.msg == Arrived(stream, avail, k)
  {
    heard, k := Follow(Course(stream, avail, expectBody), stream, avail, expectBody);
  }
}
