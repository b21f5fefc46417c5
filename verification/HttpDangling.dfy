/** When the receive loop, as written, compares a pointer into a buffer that has been moved:
    for every stream of bytes, whoever sends it. */
module HttpDangling {
  import opened Options
  import opened CStrings
  import opened HttpReceive

  /** The sizes the buffer takes: 4096 bytes, doubled j times. */
  function Capacity(j: nat): (c: nat)
    ensures 4096 <= c
  {
    if j == 0 then 4096 else 2 * Capacity(j - 1)
  }

  /** With this many bytes in a buffer of that size, less than a kilobyte is left. */
  predicate AtEdge(len: nat, j: nat) {
    Capacity(j) - 1024 < len <= Capacity(j)
  }

  /** Some number of bytes holds the head but not the whole body, is not all that comes, and
      is one at which the buffer is moved. */
  ghost predicate Movable(stream: string, expectBody: bool) {
    HeadEnd(stream).Some? && exists len: nat, j: nat :: MovableAt(stream, expectBody, len, j)
  }

  predicate MovableAt(stream: string, expectBody: bool, len: nat, j: nat)
    requires HeadEnd(stream).Some?
  {
    var e := HeadEnd(stream).value;
    AtEdge(len, j) && e <= len < e + Expected(stream, expectBody) && len < |stream|
  }

  /** What a part of the stream tells about it. */
  lemma PrefixKnows(stream: string, p: string, expectBody: bool)
    requires p <= stream && HeadEnd(stream).Some?
    ensures var e := HeadEnd(stream).value;
            && (HeadEnd(p).Some? <==> |p| >= e)
            && (Complete(p, expectBody) <==> |p| >= e + Expected(stream, expectBody))
  {
    var e := HeadEnd(stream).value;
    if |p| >= e {
      assert p[e - 4..e] == stream[e - 4..e];
      assert HasAt(p, e - 4, "\r\n\r\n");
    }
    if HeadEnd(p).Some? {
      HeadIsStable(p, stream, expectBody);
    }
  }

  // ---------- only then ----------

  lemma {:induction false} SizeIs(total: nat, avail: nat -> nat, k: nat) returns (j: nat)
    ensures Filled(total, avail, k).cap == Capacity(j)
  {
    j := 0;
    if k > 0 {
      var i := SizeIs(total, avail, k - 1);
      assert Capacity(i + 1) == 2 * Capacity(i);
      j := if Filled(total, avail, k).cap == Capacity(i) then i else i + 1;
    }
  }

  /** A call after which the buffer was moved. */
  lemma MoveIsAtEdge(total: nat, avail: nat -> nat, k: nat) returns (j: nat)
    requires Filled(total, avail, k + 1).cap != Filled(total, avail, k).cap
    ensures AtEdge(Filled(total, avail, k + 1).len, j)
  {
    j := SizeIs(total, avail, k);
  }

  lemma {:induction false} MovedWhen(c: nat -> Seen, k: nat) returns (j: nat)
    requires Moved(c, k)
    ensures j < k && MovesHead(c, j)
  {
    if MovesHead(c, k - 1) {
      j := k - 1;
    } else {
      j := MovedWhen(c, k - 1);
    }
  }

  /** Some call moved the head, and a successful one followed. */
  lemma DanglingRound(c: nat -> Seen) returns (j: nat)
    requires Dangles(c)
    ensures MovesHead(c, j) && GoesOn(c, j + 1)
  {
    var k: nat :| DanglesAt(c, k);
    j := MovedWhen(c, k);
    MakesFewer(c, j + 2, k + 1);
  }

  lemma DanglesOnlyIf(stream: string, avail: nat -> nat, expectBody: bool)
    requires Dangles(Course(stream, avail, expectBody))
    ensures Movable(stream, expectBody)
  {
    var c := Course(stream, avail, expectBody);
    var k := DanglingRound(c);
    assert c(k) == See(stream, avail, expectBody, k) && c(k + 1) == See(stream, avail, expectBody, k + 1);
    assert c(k + 2) == See(stream, avail, expectBody, k + 2);
    var j := MoveIsAtEdge(|stream|, avail, k);
    var p := Arrived(stream, avail, k + 1);
    ArrivedGrows(stream, avail, k + 1);
    MovedThere(stream, p, expectBody, j);
  }

  lemma MovedThere(stream: string, p: string, expectBody: bool, j: nat)
    requires p <= stream && |p| < |stream| && AtEdge(|p|, j)
    requires HeadEnd(p).Some? && !Complete(p, expectBody)
    ensures Movable(stream, expectBody)
  {
    HeadIsStable(p, stream, expectBody);
    PrefixKnows(stream, p, expectBody);
    assert MovableAt(stream, expectBody, |p|, j);
  }

  // ---------- and then ----------

  lemma {:induction false} CapacityGrows(i: nat, j: nat)
    requires i <= j
    ensures Capacity(i) <= Capacity(j) && (i < j ==> Capacity(i) <= Capacity(j) - 4096)
    decreases j
  {
    if i < j { CapacityGrows(i, j - 1); }
  }

  /** A buffer that was full k times and doubled each time. */
  function Full(k: nat): Fill {
    Fill(if k == 0 then 0 else Capacity(k - 1), Capacity(k))
  }

  /** Fills the buffer until it has been doubled j times, then brings it to len, then adds
      byte by byte. No call comes up empty. */
  function FillTo(len: nat, j: nat): (avail: nat -> nat)
    requires AtEdge(len, j)
    ensures forall k: nat :: avail(k) == if k < j then Capacity(k) else if k == j then len - Full(j).len else 1
    ensures forall k: nat :: avail(k) > 0
  {
    if j > 0 then CapacityGrows(j - 1, j); FillBy(len - Full(j).len, j) else FillBy(len, j)
  }

  function FillBy(n: nat, j: nat): nat -> nat {
    (k: nat) => if k < j then Capacity(k) else if k == j then n else 1
  }

  /** The first j calls find as much as the buffer can hold. */
  ghost predicate FindsAll(avail: nat -> nat, j: nat) {
    forall i: nat {:trigger avail(i)} | i < j :: avail(i) == Capacity(i)
  }

  /** One call that finds at least what fits. */
  lemma FillsOnce(total: nat, avail: nat -> nat, k: nat)
    requires k > 0 && Filled(total, avail, k - 1) == Full(k - 1) && avail(k - 1) == Capacity(k - 1) <= total
    ensures Filled(total, avail, k) == Full(k)
  {
  }

  lemma {:induction false} FillsUp(total: nat, avail: nat -> nat, k: nat)
    requires FindsAll(avail, k) && (k > 0 ==> Capacity(k - 1) <= total)
    ensures Filled(total, avail, k) == Full(k)
  {
    if k > 0 {
      Before(total, avail, k);
      FillsUp(total, avail, k - 1);
      FillsOnce(total, avail, k);
    }
  }

  lemma Before(total: nat, avail: nat -> nat, k: nat)
    requires k > 0 && FindsAll(avail, k) && Capacity(k - 1) <= total
    ensures FindsAll(avail, k - 1) && avail(k - 1) == Capacity(k - 1) && (k > 1 ==> Capacity(k - 2) <= total)
  {
    if k > 1 { CapacityGrows(k - 2, k - 1); }
  }

  /** Then it holds len bytes and moves, and one more byte comes. */
  lemma ReachesEdge(total: nat, avail: nat -> nat, len: nat, j: nat)
    requires AtEdge(len, j) && len < total && Full(j).len < len && Filled(total, avail, j) == Full(j)
    requires avail(j) == len - Full(j).len && avail(j + 1) == 1
    ensures Filled(total, avail, j + 1) == Fill(len, Capacity(j + 1)) && Filled(total, avail, j + 2).len == len + 1
  {
  }

  /** How many bytes there are after each of these calls. */
  lemma FillToFills(total: nat, avail: nat -> nat, len: nat, j: nat, k: nat)
    requires AtEdge(len, j) && len < total && avail == FillTo(len, j) && k <= j
    ensures Full(k).len < len && Filled(total, avail, k) == Full(k)
    ensures Filled(total, avail, j + 1) == Fill(len, Capacity(j + 1)) && Filled(total, avail, j + 2).len == len + 1
  {
    if k > 0 { CapacityGrows(k - 1, j); }
    if j > 0 { CapacityGrows(j - 1, j); }
    FillsUp(total, avail, k);
    FillsUp(total, avail, j);
    ReachesEdge(total, avail, len, j);
  }

  /** What the course of a stream says after k calls. */
  lemma KnownAt(c: nat -> Seen, stream: string, avail: nat -> nat, expectBody: bool, k: nat)
    requires Follows(c, stream, avail, expectBody) && HeadEnd(stream).Some?
    ensures var e := HeadEnd(stream).value;
            && |c(k).text| == Filled(|stream|, avail, k).len && c(k).cap == Filled(|stream|, avail, k).cap
            && (c(k).start.Some? <==> |c(k).text| >= e)
            && (c(k).Done() <==> |c(k).text| >= e + Expected(stream, expectBody))
  {
    assert c(k) == See(stream, avail, expectBody, k);
    PrefixKnows(stream, Arrived(stream, avail, k), expectBody);
  }

  lemma {:induction false} MakesThem(c: nat -> Seen, k: nat)
    requires forall i: nat | i < k :: GoesOn(c, i)
    ensures Makes(c, k)
  {
    if k > 0 { MakesThem(c, k - 1); }
  }

  lemma EachGoesOn(c: nat -> Seen, stream: string, expectBody: bool, len: nat, j: nat, i: nat)
    requires HeadEnd(stream).Some? && MovableAt(stream, expectBody, len, j) && i < j + 2
    requires Follows(c, stream, FillTo(len, j), expectBody)
    ensures GoesOn(c, i)
  {
    var avail := FillTo(len, j);
    FillToAdds(|stream|, avail, len, j, i);
    KnownAt(c, stream, avail, expectBody, i);
    KnownAt(c, stream, avail, expectBody, i + 1);
  }

  /** Every call brings something, and none before the last more than len bytes. */
  lemma FillToAdds(total: nat, avail: nat -> nat, len: nat, j: nat, i: nat)
    requires AtEdge(len, j) && len < total && avail == FillTo(len, j) && i < j + 2
    ensures Adds(Filled(total, avail, i), Filled(total, avail, i + 1), len)
  {
    if i < j {
      FillToBelow(total, avail, len, j, i);
    } else {
      FillToLast(total, avail, len, j);
    }
  }

  lemma FillToBelow(total: nat, avail: nat -> nat, len: nat, j: nat, i: nat)
    requires AtEdge(len, j) && len < total && avail == FillTo(len, j) && i < j
    ensures Adds(Filled(total, avail, i), Filled(total, avail, i + 1), len)
  {
    FillToFills(total, avail, len, j, i);
    FillToFills(total, avail, len, j, i + 1);
    FullGrows(i);
  }

  lemma FillToLast(total: nat, avail: nat -> nat, len: nat, j: nat)
    requires AtEdge(len, j) && len < total && avail == FillTo(len, j)
    ensures Adds(Filled(total, avail, j), Filled(total, avail, j + 1), len)
    ensures Adds(Filled(total, avail, j + 1), Filled(total, avail, j + 2), len)
  {
    FillToFills(total, avail, len, j, j);
  }

  predicate Adds(f: Fill, g: Fill, len: nat) {
    f.len <= len && f.len < g.len
  }

  lemma FullGrows(i: nat)
    ensures Full(i).len < Full(i + 1).len
  {
    if i > 0 { CapacityGrows(i - 1, i); }
  }

  lemma FillToMakes(c: nat -> Seen, stream: string, expectBody: bool, len: nat, j: nat)
    requires HeadEnd(stream).Some? && MovableAt(stream, expectBody, len, j)
    requires Follows(c, stream, FillTo(len, j), expectBody)
    ensures Makes(c, j + 2)
  {
    forall i: nat | i < j + 2
      ensures GoesOn(c, i)
    {
      EachGoesOn(c, stream, expectBody, len, j, i);
    }
    MakesThem(c, j + 2);
  }

  lemma FillToMoves(c: nat -> Seen, stream: string, expectBody: bool, len: nat, j: nat)
    requires HeadEnd(stream).Some? && MovableAt(stream, expectBody, len, j)
    requires Follows(c, stream, FillTo(len, j), expectBody)
    ensures MovesHead(c, j)
  {
    var avail := FillTo(len, j);
    FillToFills(|stream|, avail, len, j, j);
    MovesThere(c, stream, avail, expectBody, j);
  }

  lemma MovesThere(c: nat -> Seen, stream: string, avail: nat -> nat, expectBody: bool, j: nat)
    requires Follows(c, stream, avail, expectBody) && HeadEnd(stream).Some?
    requires HeadEnd(stream).value <= Filled(|stream|, avail, j + 1).len
    requires Filled(|stream|, avail, j).cap != Filled(|stream|, avail, j + 1).cap
    ensures MovesHead(c, j)
  {
    KnownAt(c, stream, avail, expectBody, j);
    KnownAt(c, stream, avail, expectBody, j + 1);
  }

  lemma FillToDangles(c: nat -> Seen, stream: string, expectBody: bool, len: nat, j: nat)
    requires HeadEnd(stream).Some? && MovableAt(stream, expectBody, len, j)
    requires Follows(c, stream, FillTo(len, j), expectBody)
    ensures Dangles(c)
  {
    FillToMakes(c, stream, expectBody, len, j);
    FillToMoves(c, stream, expectBody, len, j);
    assert DanglesAt(c, j + 1);
  }

  // ---------- exactly then ----------

  /** No call comes up empty. */
  ghost predicate Steady(avail: nat -> nat) {
    forall k: nat :: avail(k) > 0
  }

  /** For every stream: some way of arriving, even one without an empty read, makes the loop
      compare a dangling pointer exactly if the stream is movable. */
  lemma DanglesIff(stream: string, expectBody: bool)
    ensures (exists avail: nat -> nat :: Dangles(Course(stream, avail, expectBody))) <==> Movable(stream, expectBody)
    ensures Movable(stream, expectBody) ==>
              exists avail: nat -> nat :: Steady(avail) && Dangles(Course(stream, avail, expectBody))
  {
    if Movable(stream, expectBody) {
      var len: nat, j: nat :| MovableAt(stream, expectBody, len, j);
      FillToDangles(Course(stream, FillTo(len, j), expectBody), stream, expectBody, len, j);
      assert Steady(FillTo(len, j));
    }
    forall avail: nat -> nat | Dangles(Course(stream, avail, expectBody))
      ensures Movable(stream, expectBody)
    {
      DanglesOnlyIf(stream, avail, expectBody);
    }
  }

  // ---------- messages without a length ----------

  /** A head without a Content-Length field announces nothing. */
  lemma AnnouncesNothing(head: string)
    requires forall j: nat | j <= |head| :: !HasAt(head, j, "Content-Length:")
    ensures Announced(head) == 0
  {
  }

  /** Any other announces the number behind the first one. */
  lemma AnnouncesFirst(head: string, j: nat)
    requires HasAt(head, j, "Content-Length:") && forall i: nat | i < j :: !HasAt(head, i, "Content-Length:")
    ensures j + 15 <= |head| && Announced(head) == StrToUL(head[j + 15..])
  {
    FindSubIs(head, "Content-Length:", j);
  }

  /** The first blank line of a stream ends at e, and no field before it is a Content-Length. */
  ghost predicate Lengthless(stream: string, e: nat) {
    && 4 <= e <= |stream| && HasAt(stream, e - 4, "\r\n\r\n")
    && (forall j: nat | j < e - 4 :: !HasAt(stream, j, "\r\n\r\n"))
    && (forall j: nat | j + 15 <= e :: !HasAt(stream, j, "Content-Length:"))
  }

  lemma LengthlessComplete(stream: string, e: nat, p: string, expectBody: bool)
    requires Lengthless(stream, e) && p <= stream
    ensures HeadEnd(stream) == Some(e) && Expected(stream, expectBody) == 0
    ensures Complete(p, expectBody) <==> |p| >= e
  {
    FindSubIs(stream, "\r\n\r\n", e - 4);
    var head := stream[..e];
    forall j: nat | j <= |head|
      ensures !HasAt(head, j, "Content-Length:")
    {
      assert |"Content-Length:"| == 15;
      if j + 15 <= e {
        assert head[j..j + 15] == stream[j..j + 15];
        assert !HasAt(stream, j, "Content-Length:");
      }
    }
    AnnouncesNothing(head);
    PrefixKnows(stream, p, expectBody);
  }

  /** For a message that declares no length the loop stops after the first call at which its
      blank line has arrived, unless a read before that comes up empty; and no way of arriving
      makes the pointer dangle. */
  lemma LengthlessStops(stream: string, e: nat, avail: nat -> nat, expectBody: bool, k: nat)
    requires Lengthless(stream, e)
    ensures !Dangles(Course(stream, avail, expectBody))
    ensures StopsAfter(Course(stream, avail, expectBody), k) ==>
              && (|Arrived(stream, avail, k)| >= e || avail(k) == 0)
              && forall j: nat | j < k :: |Arrived(stream, avail, j)| < e
  {
    LengthlessNeverDangles(stream, e, avail, expectBody);
    if StopsAfter(Course(stream, avail, expectBody), k) {
      LengthlessEnds(stream, e, avail, expectBody, k);
      forall j: nat | j < k
        ensures |Arrived(stream, avail, j)| < e
      {
        EarlierGoesOn(Course(stream, avail, expectBody), j, k);
        LengthlessGoesOn(stream, e, avail, expectBody, j);
      }
    }
  }

  lemma EarlierGoesOn(c: nat -> Seen, j: nat, k: nat)
    requires StopsAfter(c, k) && j < k
    ensures GoesOn(c, j)
  {
    MakesFewer(c, j + 1, k);
  }

  lemma LengthlessNeverDangles(stream: string, e: nat, avail: nat -> nat, expectBody: bool)
    requires Lengthless(stream, e)
    ensures !Dangles(Course(stream, avail, expectBody))
  {
    LengthlessComplete(stream, e, stream, expectBody);
    if Dangles(Course(stream, avail, expectBody)) {
      DanglesOnlyIf(stream, avail, expectBody);
    }
  }

  lemma LengthlessEnds(stream: string, e: nat, avail: nat -> nat, expectBody: bool, k: nat)
    requires Lengthless(stream, e) && StopsAfter(Course(stream, avail, expectBody), k)
    ensures |Arrived(stream, avail, k)| >= e || avail(k) == 0
  {
    WhyItStops(stream, avail, expectBody, k);
    ArrivedGrows(stream, avail, k);
    LengthlessComplete(stream, e, Arrived(stream, avail, k), expectBody);
  }

  lemma LengthlessGoesOn(stream: string, e: nat, avail: nat -> nat, expectBody: bool, j: nat)
    requires Lengthless(stream, e) && GoesOn(Course(stream, avail, expectBody), j)
    ensures |Arrived(stream, avail, j)| < e
  {
    assert Course(stream, avail, expectBody)(j) == See(stream, avail, expectBody, j);
    ArrivedGrows(stream, avail, j);
    LengthlessComplete(stream, e, Arrived(stream, avail, j), expectBody);
  }
}
