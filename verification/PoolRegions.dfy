/** Regions handed out by the pool, over whole runs.

    A ledger keeps, beside the pool, the regions its callers still own: a stack of
    region lists, stored as one list with the cut at which each snapshot was taken. */
module PoolRegions {
  import opened Bits
  import opened PoolSpec

  datatype Region = Region(addr: Addr, size: nat)

  datatype Ledger = Ledger(live: seq<Region>, cuts: seq<nat>)

  /** The ledger after an operation that returned address a. */
  function Record(l: Ledger, op: Op, a: Addr): Ledger {
    match op
    case Alloc(n, _, _) => if a.Null? then l else l.(live := l.live + [Region(a, n)])
    case Align(_, _, _) => l
    case Save => l.(cuts := l.cuts + [|l.live|])
    case Restore =>
      if |l.cuts| == 0 || l.cuts[|l.cuts| - 1] > |l.live| then l
      else Ledger(l.live[..l.cuts[|l.cuts| - 1]], l.cuts[..|l.cuts| - 1])
    case Reset => Ledger([], [])
  }

  // ---------- what callers may rely on ----------

  predicate Disjoint(r: Region, q: Region) {
    match (r.addr, q.addr)
    case (At(b, o), At(c, p)) => b != c || o + r.size <= p || p + q.size <= o
    case (Large(i), Large(j)) => i != j
    case _ => true
  }

  predicate InBounds(s: State, r: Region) {
    match r.addr
    case Null => false
    case At(b, o) => b < |s.blocks| && 0 < r.size && o + r.size <= s.size
    case Large(i) => i in s.larges
  }

  /** The regions in use lie inside the pool's memory and do not overlap. */
  ghost predicate Sound(s: State, l: Ledger) {
    && (forall i | 0 <= i < |l.live| :: InBounds(s, l.live[i]))
    && (forall i, j | 0 <= i < j < |l.live| :: Disjoint(l.live[i], l.live[j]))
  }

  // ---------- the invariant that implies it ----------

  /** r ends at or before head h of block b. */
  predicate EndsBy(r: Region, b: nat, h: nat) {
    r.addr.At? ==> PosLe(r.addr.block, r.addr.off + r.size, b, h)
  }

  predicate Before(r: Region, q: Region) {
    r.addr.At? && q.addr.At? ==> EndsBy(r, q.addr.block, q.addr.off)
  }

  predicate WellPlaced(s: State, r: Region) {
    && !r.addr.Null?
    && (r.addr.At? ==> r.addr.block < |s.blocks| && 0 < r.size && r.addr.off + r.size <= s.size)
  }

  function LargeIds(live: seq<Region>): seq<nat> {
    if live == [] then []
    else
      var r := live[|live| - 1];
      LargeIds(live[..|live| - 1]) + if r.addr.Large? then [r.addr.id] else []
  }

  ghost predicate SmallsInv(s: State, live: seq<Region>)
    requires |s.blocks| > 0
  {
    && (forall i | 0 <= i < |live| :: WellPlaced(s, live[i]) && EndsBy(live[i], FrontBlock(s), FrontHead(s)))
    && (forall i, j | 0 <= i < j < |live| :: Before(live[i], live[j]))
  }

  /** What snapshot d remembers lies below it. */
  ghost predicate CutOk(s: State, l: Ledger, d: nat)
    requires d < |s.marks| && d < |l.cuts|
  {
    && l.cuts[d] <= |l.live|
    && |LargeIds(l.live[..l.cuts[d]])| == s.marks[d].large
    && forall i | 0 <= i < l.cuts[d] :: EndsBy(l.live[i], s.marks[d].Base(), s.marks[d].head)
  }

  ghost predicate CutsInv(s: State, l: Ledger) {
    && |l.cuts| == |s.marks|
    && (forall d | 0 <= d < |l.cuts| :: CutOk(s, l, d))
    && (forall d, e | 0 <= d < e < |l.cuts| :: l.cuts[d] <= l.cuts[e])
  }

  predicate IdsInv(s: State) {
    && (forall i | 0 <= i < |s.larges| :: s.larges[i] < s.born)
    && (forall i, j | 0 <= i < j < |s.larges| :: s.larges[i] < s.larges[j])
  }

  ghost predicate LedgerInv(s: State, l: Ledger)
    requires |s.blocks| > 0
  {
    SmallsInv(s, l.live) && CutsInv(s, l) && IdsInv(s) && LargeIds(l.live) == s.larges
  }

  // ---------- large identifiers ----------

  lemma {:induction false} LargeIdsPrefix(live: seq<Region>, c: nat)
    requires c <= |live|
    ensures LargeIds(live[..c]) <= LargeIds(live)
  {
    if c < |live| {
      LargeIdsPrefix(live[..|live| - 1], c);
      assert live[..|live| - 1][..c] == live[..c];
    } else {
      assert live[..c] == live;
    }
  }

  lemma LargeIdsAppend(live: seq<Region>, r: Region)
    ensures LargeIds(live + [r]) == LargeIds(live) + if r.addr.Large? then [r.addr.id] else []
  {
    assert (live + [r])[..|live|] == live;
  }

  /** A live large region's identifier is in the list, at a place of its own. */
  lemma {:induction false} LargeIdsPlace(live: seq<Region>, i: nat) returns (p: nat)
    requires i < |live| && live[i].addr.Large?
    ensures p < |LargeIds(live)| && LargeIds(live)[p] == live[i].addr.id
    ensures p == |LargeIds(live[..i])|
  {
    assert live[..i + 1][..i] == live[..i];
    p := |LargeIds(live[..i])|;
    assert LargeIds(live[..i + 1]) == LargeIds(live[..i]) + [live[i].addr.id];
    LargeIdsPrefix(live, i + 1);
  }

  lemma LargesDistinct(s: State, l: Ledger, i: nat, j: nat)
    requires IdsInv(s) && LargeIds(l.live) == s.larges
    requires i < j < |l.live| && l.live[i].addr.Large? && l.live[j].addr.Large?
    ensures l.live[i].addr.id != l.live[j].addr.id
  {
    var p := LargeIdsPlace(l.live, i);
    var q := LargeIdsPlace(l.live, j);
    assert l.live[..j][..i + 1] == l.live[..i + 1];
    LargeIdsPrefix(l.live[..j], i + 1);
    assert l.live[..i + 1][..i] == l.live[..i];
  }

  lemma InvIsSound(s: State, l: Ledger)
    requires Inv(s) && LedgerInv(s, l)
    ensures Sound(s, l)
  {
    forall i | 0 <= i < |l.live|
      ensures InBounds(s, l.live[i])
    {
      assert WellPlaced(s, l.live[i]);
      if l.live[i].addr.Large? {
        var p := LargeIdsPlace(l.live, i);
      }
    }
    forall i, j | 0 <= i < j < |l.live|
      ensures Disjoint(l.live[i], l.live[j])
    {
      assert Before(l.live[i], l.live[j]);
      if l.live[i].addr.Large? && l.live[j].addr.Large? {
        LargesDistinct(s, l, i, j);
      }
    }
  }

  // ---------- one step ----------

  /** What a successful request did: it lies above the old front and below the new one. */
  lemma PallocRegion(s: State, n: nat, ok1: bool, ok2: bool)
    requires Inv(s) && n > 0
    ensures var (t, a) := Palloc(s, n, ok1, ok2);
            && |s.blocks| <= |t.blocks| && t.size == s.size && t.marks == s.marks
            && PosLe(FrontBlock(s), FrontHead(s), FrontBlock(t), FrontHead(t))
            && (a.At? ==> && t.larges == s.larges && t.born == s.born
                          && WellPlaced(t, Region(a, n))
                          && PosLe(FrontBlock(s), FrontHead(s), a.block, a.off)
                          && EndsBy(Region(a, n), FrontBlock(t), FrontHead(t)))
            && (a.Large? ==> t.larges == s.larges + [s.born] && t.born == s.born + 1 && a.id == s.born)
            && (a.Null? ==> t.larges == s.larges && t.born >= s.born)
  {
  }

  lemma EndsByTrans(r: Region, b: nat, h: nat, b': nat, h': nat)
    requires EndsBy(r, b, h) && PosLe(b, h, b', h')
    ensures EndsBy(r, b', h')
  {
  }

  /** Moving the front forward keeps the regions below it. */
  lemma SmallsForward(s: State, t: State, live: seq<Region>)
    requires |s.blocks| > 0 && SmallsInv(s, live)
    requires |s.blocks| <= |t.blocks| && t.size == s.size
    requires PosLe(FrontBlock(s), FrontHead(s), FrontBlock(t), FrontHead(t))
    ensures SmallsInv(t, live)
  {
    forall i | 0 <= i < |live|
      ensures WellPlaced(t, live[i]) && EndsBy(live[i], FrontBlock(t), FrontHead(t))
    {
      assert WellPlaced(s, live[i]);
      EndsByTrans(live[i], FrontBlock(s), FrontHead(s), FrontBlock(t), FrontHead(t));
    }
  }

  /** Handing out one more region keeps every cut. */
  lemma CutsAppend(s: State, t: State, l: Ledger, r: Region)
    requires CutsInv(s, l) && t.marks == s.marks
    ensures CutsInv(t, l.(live := l.live + [r]))
  {
    var l' := l.(live := l.live + [r]);
    forall d | 0 <= d < |l.cuts|
      ensures CutOk(t, l', d)
    {
      assert CutOk(s, l, d);
      assert l'.live[..l.cuts[d]] == l.live[..l.cuts[d]];
    }
  }

  lemma CutsSame(s: State, t: State, l: Ledger)
    requires CutsInv(s, l) && t.marks == s.marks
    ensures CutsInv(t, l)
  {
    forall d | 0 <= d < |l.cuts|
      ensures CutOk(t, l, d)
    {
      assert CutOk(s, l, d);
    }
  }

  lemma AllocStep(s: State, l: Ledger, n: nat, ok1: bool, ok2: bool)
    requires Inv(s) && LedgerInv(s, l) && n > 0
    ensures var (t, a) := Palloc(s, n, ok1, ok2);
            |t.blocks| > 0 && LedgerInv(t, Record(l, Alloc(n, ok1, ok2), a))
  {
    var (t, a) := Palloc(s, n, ok1, ok2);
    PallocRegion(s, n, ok1, ok2);
    SmallsForward(s, t, l.live);
    if a.Null? {
      CutsSame(s, t, l);
    } else {
      var r := Region(a, n);
      CutsAppend(s, t, l, r);
      LargeIdsAppend(l.live, r);
      AppendRegion(s, t, l.live, r);
    }
  }

  lemma AppendRegion(s: State, t: State, live: seq<Region>, r: Region)
    requires |s.blocks| > 0 && |t.blocks| > 0 && SmallsInv(s, live) && SmallsInv(t, live)
    requires WellPlaced(t, r) && EndsBy(r, FrontBlock(t), FrontHead(t))
    requires r.addr.At? ==> PosLe(FrontBlock(s), FrontHead(s), r.addr.block, r.addr.off)
    ensures SmallsInv(t, live + [r])
  {
    forall i | 0 <= i < |live|
      ensures Before(live[i], r)
    {
      if r.addr.At? {
        EndsByTrans(live[i], FrontBlock(s), FrontHead(s), r.addr.block, r.addr.off);
      }
    }
    var more := live + [r];
    forall i, j | 0 <= i < j < |more|
      ensures Before(more[i], more[j])
    {
      if j < |live| { assert Before(live[i], live[j]); }
    }
  }

  lemma SaveStep(s: State, l: Ledger)
    requires Inv(s) && LedgerInv(s, l) && |s.marks| < MAX_SAVE_DEPTH
    ensures LedgerInv(SaveMark(s), Record(l, Save, Null))
  {
    var t, l' := SaveMark(s), Record(l, Save, Null);
    SmallsForward(s, t, l.live);
    forall d | 0 <= d < |l'.cuts|
      ensures CutOk(t, l', d)
    {
      if d < |l.cuts| {
        assert CutOk(s, l, d);
      } else {
        assert l'.live[..l'.cuts[d]] == l.live;
      }
    }
    forall d, e | 0 <= d < e < |l'.cuts|
      ensures l'.cuts[d] <= l'.cuts[e]
    {
      assert CutOk(s, l, d);
    }
  }

  lemma RestoreSmalls(s: State, l: Ledger)
    requires Inv(s) && LedgerInv(s, l) && |s.marks| > 0
    requires MarkOk(s, s.marks[|s.marks| - 1]) && CutOk(s, l, |s.marks| - 1)
    ensures SmallsInv(RestoreMark(s), Record(l, Restore, Null).live)
  {
    var t, l' := RestoreMark(s), Record(l, Restore, Null);
    forall i | 0 <= i < |l'.live|
      ensures WellPlaced(t, l'.live[i]) && EndsBy(l'.live[i], FrontBlock(t), FrontHead(t))
    {
      assert WellPlaced(s, l.live[i]);
    }
    forall i, j | 0 <= i < j < |l'.live|
      ensures Before(l'.live[i], l'.live[j])
    {
      assert Before(l.live[i], l.live[j]);
    }
  }

  lemma RestoreCuts(s: State, l: Ledger)
    requires CutsInv(s, l) && |s.marks| > 0
    requires CutOk(s, l, |s.marks| - 1)
    ensures CutsInv(s.(marks := s.marks[..|s.marks| - 1]), Record(l, Restore, Null))
  {
    var t, l' := s.(marks := s.marks[..|s.marks| - 1]), Record(l, Restore, Null);
    forall d | 0 <= d < |l'.cuts|
      ensures CutOk(t, l', d)
    {
      assert CutOk(s, l, d) && l.cuts[d] <= l.cuts[|s.marks| - 1];
      assert l'.live[..l.cuts[d]] == l.live[..l.cuts[d]];
    }
  }

  lemma RestoreStep(s: State, l: Ledger)
    requires Inv(s) && LedgerInv(s, l) && |s.marks| > 0
    ensures var t := RestoreMark(s); LedgerInv(t, Record(l, Restore, Null))
  {
    var last := |s.marks| - 1;
    var t, l' := RestoreMark(s), Record(l, Restore, Null);
    assert MarkOk(s, s.marks[last]) && CutOk(s, l, last);
    RestoreSmalls(s, l);
    RestoreCuts(s, l);
    CutsSame(s.(marks := t.marks), t, l');
    RestoreIds(s, l);
  }

  lemma RestoreIds(s: State, l: Ledger)
    requires Inv(s) && IdsInv(s) && LargeIds(l.live) == s.larges && |s.marks| > 0 && |l.cuts| == |s.marks|
    requires MarkOk(s, s.marks[|s.marks| - 1]) && CutOk(s, l, |s.marks| - 1)
    ensures IdsInv(RestoreMark(s)) && LargeIds(Record(l, Restore, Null).live) == RestoreMark(s).larges
  {
    LargeIdsPrefix(l.live, l.cuts[|s.marks| - 1]);
  }

  lemma AlignStep(s: State, l: Ledger, exp: nat, ok1: bool, ok2: bool)
    requires Inv(s) && LedgerInv(s, l) && exp <= 63
    ensures var t := AlignTo(s, Pow2(exp), ok1, ok2).0;
            |t.blocks| > 0 && LedgerInv(t, l)
  {
    var t := AlignTo(s, Pow2(exp), ok1, ok2).0;
    AlignMovesFront(s, exp, ok1, ok2);
    SmallsForward(s, t, l.live);
    CutsSame(s, t, l);
  }

  lemma StepKeepsLedger(s: State, l: Ledger, op: Op)
    requires Inv(s) && LedgerInv(s, l) && Enabled(s, op)
    ensures var (t, a) := Step(s, op); Inv(t) && LedgerInv(t, Record(l, op, a))
  {
    StepKeepsInv(s, op);
    match op
    case Alloc(n, ok1, ok2) => AllocStep(s, l, n, ok1, ok2);
    case Align(exp, ok1, ok2) => AlignStep(s, l, exp, ok1, ok2);
    case Save => SaveStep(s, l);
    case Restore => RestoreStep(s, l);
    case Reset =>
  }

  // ---------- whole runs ----------

  datatype Config = Config(s: State, l: Ledger)

  ghost predicate Good(c: Config) {
    Inv(c.s) && LedgerInv(c.s, c.l)
  }

  function Next(c: Config, op: Op): (c': Config)
    requires Good(c) && Enabled(c.s, op)
    ensures Good(c')
  {
    StepKeepsLedger(c.s, c.l, op);
    var (t, a) := Step(c.s, op);
    Config(t, Record(c.l, op, a))
  }

  /** A run either reaches a configuration or fails one of the code's assertions. */
  datatype Outcome = Aborted | Running(c: Config)

  function Exec(c: Config, ops: seq<Op>): (r: Outcome)
    requires Good(c)
    ensures r.Running? ==> Good(r.c)
    decreases |ops|
  {
    if ops == [] then Running(c)
    else if Enabled(c.s, ops[0]) then Exec(Next(c, ops[0]), ops[1..])
    else Aborted
  }

  function Start(size: nat): (c: Config)
    requires size < HALF
    ensures Good(c)
  {
    Config(Init(size), Ledger([], []))
  }

  /** Over every run, the regions in use lie in the pool's blocks and are pairwise disjoint. */
  lemma RunIsSound(size: nat, ops: seq<Op>)
    requires size < HALF && Exec(Start(size), ops).Running?
    ensures var c := Exec(Start(size), ops).c; Sound(c.s, c.l)
  {
    var c := Exec(Start(size), ops).c;
    InvIsSound(c.s, c.l);
  }

  /** One step of an allocator known only by its promises: a new region overlaps none
      in use, a snapshot opens a frame, a restore gives back exactly that frame. */
  ghost predicate Promises(c: Config, op: Op, a: Addr, c': Config) {
    match op
    case Alloc(n, _, _) =>
      if a.Null? then c'.l == c.l
      else
        && c'.l == c.l.(live := c.l.live + [Region(a, n)])
        && InBounds(c'.s, Region(a, n))
        && forall i | 0 <= i < |c.l.live| :: Disjoint(c.l.live[i], Region(a, n))
    case Align(_, _, _) => c'.l == c.l
    case Save => c'.l.live == c.l.live && c'.l.cuts == c.l.cuts + [|c.l.live|]
    case Restore =>
      && |c.l.cuts| > 0
      && c'.l.cuts == c.l.cuts[..|c.l.cuts| - 1]
      && c.l.cuts[|c.l.cuts| - 1] <= |c.l.live|
      && c'.l.live == c.l.live[..c.l.cuts[|c.l.cuts| - 1]]
    case Reset => c'.l == Ledger([], [])
  }

  /** Every step of every run keeps those promises. */
  lemma StepRefines(c: Config, op: Op)
    requires Good(c) && Enabled(c.s, op)
    ensures Promises(c, op, Step(c.s, op).1, Next(c, op))
  {
    var c' := Next(c, op);
    InvIsSound(c'.s, c'.l);
    if op.Alloc? && !Step(c.s, op).1.Null? {
      var n := |c.l.live|;
      assert InBounds(c'.s, c'.l.live[n]);
      forall i | 0 <= i < n
        ensures Disjoint(c.l.live[i], c'.l.live[n])
      {
        assert Disjoint(c'.l.live[i], c'.l.live[n]);
      }
    }
    if op.Restore? {
      assert CutOk(c.s, c.l, |c.l.cuts| - 1);
    }
  }

  // ---------- a restore undoes everything since its save ----------

  /** The snapshots and cuts of c extend those of c0, taken when c0 was saved. */
  predicate KeptMarks(c0: Config, c: Config)
    requires |c0.s.blocks| > 0
  {
    var saved := SaveMark(c0.s).marks;
    && saved <= c.s.marks
    && |c.l.cuts| == |c.s.marks|
    && c0.l.cuts + [|c0.l.live|] <= c.l.cuts
  }

  /** Everything c0 held is still there below the front of c. */
  predicate KeptContent(c0: Config, c: Config)
    requires |c0.s.blocks| > 0
  {
    && c0.l.live <= c.l.live
    && c0.s.larges <= c.s.larges
    && |c0.s.blocks| <= |c.s.blocks|
    && c.s.blocks[..FrontBlock(c0.s)] == c0.s.blocks[..FrontBlock(c0.s)]
  }

  predicate Kept(c0: Config, c: Config)
    requires |c0.s.blocks| > 0
  {
    KeptMarks(c0, c) && KeptContent(c0, c)
  }

  lemma AllocKeeps(s: State, n: nat, ok1: bool, ok2: bool)
    requires Inv(s) && n > 0
    ensures var t := Palloc(s, n, ok1, ok2).0;
            && t.blocks[..FrontBlock(s)] == s.blocks[..FrontBlock(s)]
            && |s.blocks| <= |t.blocks| && t.marks == s.marks && s.larges <= t.larges
  {
  }

  lemma ShorterPrefix<T>(a: seq<T>, b: seq<T>, m: nat, f: nat)
    requires m <= f <= |a| && f <= |b| && a[..f] == b[..f]
    ensures a[..m] == b[..m]
  {
    assert a[..m] == a[..f][..m];
    assert b[..m] == b[..f][..m];
  }

  lemma RestoreKeepsMarks(c0: Config, c: Config)
    requires Good(c0) && Good(c) && KeptMarks(c0, c) && |c.s.marks| > |c0.s.marks| + 1
    ensures KeptMarks(c0, Next(c, Restore))
  {
  }

  /** The newest snapshot is not behind the one taken when c0 was saved. */
  lemma NewestIsLater(c0: Config, c: Config)
    requires Good(c0) && Good(c) && KeptMarks(c0, c) && |c.s.marks| > |c0.s.marks| + 1
    ensures var e := c.s.marks[|c.s.marks| - 1];
            && FrontBlock(c0.s) <= e.Base() < |c.s.blocks| && |c0.s.larges| <= e.large <= |c.s.larges|
            && |c0.l.live| <= c.l.cuts[|c.s.marks| - 1] <= |c.l.live|
  {
    var k, last := |c0.s.marks|, |c.s.marks| - 1;
    assert MarkLe(c.s.marks[k], c.s.marks[last]) && MarkOk(c.s, c.s.marks[last]) && CutOk(c.s, c.l, last);
    assert c.s.marks[k] == SaveMark(c0.s).marks[k] && c.l.cuts[k] == |c0.l.live|;
  }

  lemma RestoreKeepsContent(c0: Config, c: Config)
    requires Good(c0) && Good(c) && Kept(c0, c) && |c.s.marks| > |c0.s.marks| + 1
    ensures KeptContent(c0, Next(c, Restore))
  {
    NewestIsLater(c0, c);
    var e := c.s.marks[|c.s.marks| - 1];
    ShorterPrefix(RestoreMark(c.s).blocks, c.s.blocks, FrontBlock(c0.s), e.Base());
  }

  lemma KeptRestore(c0: Config, c: Config)
    requires Good(c0) && Good(c) && Kept(c0, c) && |c.s.marks| > |c0.s.marks| + 1
    ensures Kept(c0, Next(c, Restore))
  {
    RestoreKeepsMarks(c0, c);
    RestoreKeepsContent(c0, c);
  }

  lemma FrontsInOrder(c0: Config, c: Config)
    requires Good(c0) && Good(c) && KeptMarks(c0, c)
    ensures FrontBlock(c0.s) <= FrontBlock(c.s)
  {
    var k := |c0.s.marks|;
    assert c.s.marks[k] == SaveMark(c0.s).marks[k] && MarkOk(c.s, c.s.marks[k]);
  }

  lemma StepKeepsFront(s: State, op: Op)
    requires Inv(s) && (op.Alloc? || op.Align? || op.Save?) && Enabled(s, op)
    ensures var t := Step(s, op).0;
            && |s.blocks| <= |t.blocks| && FrontBlock(s) <= |s.blocks| && s.larges <= t.larges
            && t.blocks[..FrontBlock(s)] == s.blocks[..FrontBlock(s)]
            && s.marks <= t.marks && (t.marks == s.marks || op.Save?)
  {
    match op {
      case Alloc(n, ok1, ok2) => AllocKeeps(s, n, ok1, ok2);
      case Align(exp, ok1, ok2) => AlignMovesFront(s, exp, ok1, ok2);
      case Save =>
    }
  }

  lemma KeptForward(c0: Config, c: Config, op: Op)
    requires Good(c0) && Good(c) && Kept(c0, c)
    requires (op.Alloc? || op.Align? || op.Save?) && Enabled(c.s, op)
    ensures Kept(c0, Next(c, op))
  {
    FrontsInOrder(c0, c);
    StepKeepsFront(c.s, op);
    ShorterPrefix(Step(c.s, op).0.blocks, c.s.blocks, FrontBlock(c0.s), FrontBlock(c.s));
  }

  /** The run stays inside a frame: its depth never falls to k. */
  ghost predicate Inside(c: Config, ops: seq<Op>, k: nat)
    requires Good(c)
    decreases |ops|
  {
    && |c.s.marks| > k
    && (ops != [] ==> Enabled(c.s, ops[0]) && Inside(Next(c, ops[0]), ops[1..], k))
  }

  lemma {:induction false} InsideKeeps(c0: Config, c: Config, ops: seq<Op>)
    requires Good(c0) && Good(c) && Kept(c0, c) && Inside(c, ops, |c0.s.marks|)
    ensures Exec(c, ops).Running? && Kept(c0, Exec(c, ops).c)
    decreases |ops|
  {
    if ops != [] {
      var op := ops[0];
      if op.Restore? {
        KeptRestore(c0, c);
      } else if !op.Reset? {
        KeptForward(c0, c, op);
      }
      InsideKeeps(c0, Next(c, op), ops[1..]);
    }
  }

  /** c is c0 again: same regions, snapshots and large blocks, same blocks with possibly
      new empty ones behind them. */
  ghost predicate BackTo(c0: Config, c: Config)
    requires |c0.s.blocks| > 0
  {
    && c.l == c0.l
    && c.s.larges == c0.s.larges && c.s.marks == c0.s.marks
    && c.s.cur == FrontBlock(c0.s)
    && c0.s.blocks <= c.s.blocks
    && forall i | |c0.s.blocks| <= i < |c.s.blocks| :: c.s.blocks[i] == EMPTY
  }

  lemma RewindBlocks(s0: State, s: State, m: Mark)
    requires Inv(s0) && m == SaveMark(s0).marks[|s0.marks|]
    requires |s0.blocks| <= |s.blocks|
    requires s.blocks[..FrontBlock(s0)] == s0.blocks[..FrontBlock(s0)]
    ensures var bs := Rewound(s.blocks, m.Base(), m.head, m.full);
            && s0.blocks <= bs
            && forall i | |s0.blocks| <= i < |bs| :: bs[i] == EMPTY
  {
    var f, bs := FrontBlock(s0), Rewound(s.blocks, m.Base(), m.head, m.full);
    forall i | 0 <= i < |s0.blocks|
      ensures bs[i] == s0.blocks[i]
    {
      if i < f {
        assert bs[i] == bs[..f][i] == s0.blocks[..f][i];
      }
    }
  }

  lemma KeptIsUndone(c0: Config, c1: Config)
    requires Good(c0) && Good(c1) && Kept(c0, c1) && |c1.s.marks| == |c0.s.marks| + 1
    ensures BackTo(c0, Next(c1, Restore))
  {
    var k := |c0.s.marks|;
    assert c1.s.marks == SaveMark(c0.s).marks;
    assert c1.l.cuts == c0.l.cuts + [|c0.l.live|];
    RewindBlocks(c0.s, c1.s, c1.s.marks[k]);
  }

  /** Restoring a frame gives back exactly the regions and large blocks handed out since
      the save that opened it, whatever nested saves and restores lie between. */
  lemma RestoreUndoes(c0: Config, ops: seq<Op>)
    requires Good(c0) && |c0.s.marks| < MAX_SAVE_DEPTH
    requires Inside(Next(c0, Save), ops, |c0.s.marks|)
    ensures var r := Exec(Next(c0, Save), ops);
            && r.Running?
            && (|r.c.s.marks| == |c0.s.marks| + 1 ==> BackTo(c0, Next(r.c, Restore)))
  {
    var c := Next(c0, Save);
    assert Kept(c0, c);
    InsideKeeps(c0, c, ops);
    var c1 := Exec(c, ops).c;
    if |c1.s.marks| == |c0.s.marks| + 1 {
      KeptIsUndone(c0, c1);
    }
  }
}
