/** The arena allocator as a value: what each operation of the pool does to it.

    Blocks are named by their position in the chain. `cur` is the position of the
    block being filled; `cur == |blocks|` stands for a null `current`, which the
    allocator leaves behind when it fills the tail of the chain exactly. */
module PoolSpec {
  import opened Bits

  const MAX_SAVE_DEPTH: nat := 8

  datatype Block = Block(head: nat, full: bool)

  const EMPTY := Block(0, false)

  /** A snapshot. A null `current` is recorded as `cur == last + 1`; `large` is the
      number of large blocks up to and including the saved tail of their chain. */
  datatype Mark = Mark(cur: nat, last: nat, head: nat, full: bool, large: nat) {
    /** The block whose head the snapshot remembers. */
    function Base(): nat {
      if cur <= last then cur else last
    }
  }

  /** What the pool obtains from the system allocator. */
  datatype Chunk = PoolRecord | SmallBlock(index: nat) | LargeNode(id: nat) | LargeData(id: nat)

  datatype State = State(
    size: nat,
    blocks: seq<Block>,
    cur: nat,
    larges: seq<nat>,
    marks: seq<Mark>,
    born: nat,
    taken: seq<Chunk>,
    freed: seq<Chunk>)

  datatype Addr = Null | At(block: nat, off: nat) | Large(id: nat)

  datatype Op =
    | Alloc(n: nat, ok1: bool, ok2: bool)
    | Align(exp: nat, ok1: bool, ok2: bool)
    | Save
    | Restore
    | Reset

  // ---------- operations ----------

  function Init(size: nat): State {
    State(size, [EMPTY], 0, [], [], 0, [PoolRecord, SmallBlock(0)], [])
  }

  function AppendBlock(s: State): State {
    s.(blocks := s.blocks + [EMPTY],
       cur := |s.blocks|,
       taken := s.taken + [SmallBlock(|s.blocks|)])
  }

  /** The block a small request of n bytes lands in. */
  function Target(s: State, n: nat): nat {
    if s.cur < |s.blocks| && s.blocks[s.cur].head + n > s.size then s.cur + 1 else s.cur
  }

  /** Hands out n bytes of the current block. */
  function Bump(s: State, n: nat): (State, Addr)
    requires s.cur < |s.blocks|
  {
    var b := s.blocks[s.cur];
    var h := b.head + n;
    var filled := h == s.size;
    (s.(blocks := s.blocks[s.cur := Block(h, filled || b.full)],
        cur := if filled then s.cur + 1 else s.cur),
     At(s.cur, b.head))
  }

  function AllocLarge(s: State, nodeOk: bool, dataOk: bool): (State, Addr) {
    if !nodeOk then (s, Null)
    else if !dataOk then
      (s.(born := s.born + 1,
          taken := s.taken + [LargeNode(s.born)],
          freed := s.freed + [LargeNode(s.born)]),
       Null)
    else
      (s.(larges := s.larges + [s.born],
          born := s.born + 1,
          taken := s.taken + [LargeNode(s.born), LargeData(s.born)]),
       Large(s.born))
  }

  function Palloc(s: State, n: nat, ok1: bool, ok2: bool): (State, Addr)
    requires s.cur <= |s.blocks|
  {
    if n > s.size then AllocLarge(s, ok1, ok2)
    else if Target(s, n) < |s.blocks| then Bump(s.(cur := Target(s, n)), n)
    else if ok1 then Bump(AppendBlock(s), n)
    else (s, Null)
  }

  /** Moves the head of the current block to h; a head that leaves the block moves on
      to a fresh one. The flag tells whether that append succeeded. */
  function PlaceHead(s: State, h: nat, ok: bool): (State, bool)
    requires s.cur < |s.blocks|
  {
    if h < s.size then
      (s.(blocks := s.blocks[s.cur := Block(h, s.blocks[s.cur].full)]), true)
    else
      var t := s.(blocks := s.blocks[s.cur := Block(h, true)]);
      if ok then (AppendBlock(t), true) else (t, false)
  }

  /** Rounds the head of the current block up to a multiple of a. */
  function AlignTo(s: State, a: nat, ok1: bool, ok2: bool): (State, bool)
    requires a > 0 && s.cur <= |s.blocks|
  {
    if s.cur < |s.blocks| then PlaceHead(s, AlignUp(s.blocks[s.cur].head, a), ok2)
    else if ok1 then PlaceHead(AppendBlock(s), AlignUp(0, a), ok2)
    else (s, false)
  }

  /** The block a snapshot taken now remembers, and the highest place in use. */
  function FrontBlock(s: State): nat
    requires |s.blocks| > 0
  {
    if s.cur < |s.blocks| then s.cur else |s.blocks| - 1
  }

  function FrontHead(s: State): nat
    requires |s.blocks| > 0
  {
    s.blocks[FrontBlock(s)].head
  }

  function SaveMark(s: State): State
    requires |s.blocks| > 0
  {
    var b := s.blocks[FrontBlock(s)];
    s.(marks := s.marks + [Mark(s.cur, |s.blocks| - 1, b.head, b.full, |s.larges|)])
  }

  /** Block i after the heads from block b on were rewound to (head, full). */
  function Rewound(blocks: seq<Block>, b: nat, head: nat, full: bool): (r: seq<Block>)
    requires b < |blocks|
    ensures |r| == |blocks|
    ensures r[..b] == blocks[..b] && r[b] == Block(head, full)
    ensures forall i | b < i < |r| :: r[i] == EMPTY
  {
    blocks[..b] + [Block(head, full)] + seq(|blocks| - b - 1, _ => EMPTY)
  }

  /** The order in which a chain of large blocks is released. */
  function Release(ids: seq<nat>): seq<Chunk> {
    if ids == [] then [] else Release(ids[..|ids| - 1]) + [LargeData(ids[|ids| - 1]), LargeNode(ids[|ids| - 1])]
  }

  lemma RewoundBelow(blocks: seq<Block>, b: nat, head: nat, full: bool)
    requires b < |blocks|
    ensures forall i | 0 <= i < b :: Rewound(blocks, b, head, full)[i] == blocks[i]
  {
    var r := Rewound(blocks, b, head, full);
    assert forall i | 0 <= i < b :: r[..b][i] == blocks[..b][i];
  }

  lemma RewoundAll(blocks: seq<Block>)
    requires |blocks| > 0
    ensures Rewound(blocks, 0, 0, false) == seq(|blocks|, _ => EMPTY)
  {
  }

  /** Large blocks are released one after the other, and each one's data before its node. */
  lemma {:induction false} ReleaseAt(ids: seq<nat>, i: nat)
    requires i < |ids|
    ensures |Release(ids)| == 2 * |ids|
    ensures Release(ids)[2 * i] == LargeData(ids[i]) && Release(ids)[2 * i + 1] == LargeNode(ids[i])
  {
    var init := ids[..|ids| - 1];
    ReleaseLength(init);
    if i < |init| { ReleaseAt(init, i); }
  }

  lemma {:induction false} ReleaseLength(ids: seq<nat>)
    ensures |Release(ids)| == 2 * |ids|
  {
    if ids != [] { ReleaseLength(ids[..|ids| - 1]); }
  }

  lemma ReleaseSnoc(ids: seq<nat>, k: nat, i: nat)
    requires k <= i < |ids|
    ensures Release(ids[k..i + 1]) == Release(ids[k..i]) + [LargeData(ids[i]), LargeNode(ids[i])]
  {
    assert ids[k..i + 1][..i - k] == ids[k..i];
  }

  function RestoreMark(s: State): State
    requires |s.marks| > 0
    requires s.marks[|s.marks| - 1].Base() < |s.blocks|
    requires s.marks[|s.marks| - 1].large <= |s.larges|
  {
    var m := s.marks[|s.marks| - 1];
    s.(blocks := Rewound(s.blocks, m.Base(), m.head, m.full),
       cur := m.Base(),
       larges := s.larges[..m.large],
       marks := s.marks[..|s.marks| - 1],
       freed := s.freed + Release(s.larges[m.large..]))
  }

  function ResetAll(s: State): State {
    s.(blocks := seq(|s.blocks|, _ => EMPTY),
       cur := 0,
       larges := [],
       marks := [],
       freed := s.freed + Release(s.larges))
  }

  function SmallBlocks(n: nat): seq<Chunk> {
    seq(n, i requires 0 <= i < n => SmallBlock(i))
  }

  /** The chunks returned to the system when the pool is torn down. */
  function Uninit(s: State): seq<Chunk> {
    s.freed + SmallBlocks(|s.blocks|) + Release(s.larges) + [PoolRecord]
  }

  // ---------- invariant ----------

  predicate PosLe(b: nat, h: nat, b': nat, h': nat) {
    b < b' || (b == b' && h <= h')
  }

  ghost predicate MarkOk(s: State, m: Mark)
    requires |s.blocks| > 0
  {
    && m.last < |s.blocks|
    && m.cur <= m.last + 1
    && (m.cur == m.last + 1 ==> m.head == s.size)
    && m.head <= HALF
    && m.large <= |s.larges|
    && PosLe(m.Base(), m.head, FrontBlock(s), FrontHead(s))
  }

  predicate MarkLe(m: Mark, n: Mark) {
    PosLe(m.Base(), m.head, n.Base(), n.head) && m.large <= n.large
  }

  ghost predicate ChainInv(s: State) {
    && 0 < |s.blocks|
    && s.cur <= |s.blocks|
    && s.size < HALF
    && (forall i | 0 <= i < |s.blocks| :: s.blocks[i].head <= HALF)
    && (forall i | s.cur < i < |s.blocks| :: s.blocks[i] == EMPTY)
    && (s.cur == |s.blocks| ==> s.blocks[s.cur - 1].head == s.size)
  }

  ghost predicate MarksInv(s: State)
    requires |s.blocks| > 0
  {
    && |s.marks| <= MAX_SAVE_DEPTH
    && (forall d | 0 <= d < |s.marks| :: MarkOk(s, s.marks[d]))
    && (forall d, e | 0 <= d < e < |s.marks| :: MarkLe(s.marks[d], s.marks[e]))
  }

  ghost predicate Inv(s: State) {
    ChainInv(s) && MarksInv(s)
  }

  /** What the allocator's assertions demand of a caller. */
  predicate Enabled(s: State, op: Op) {
    match op
    case Alloc(n, _, _) => n > 0
    case Align(exp, _, _) => exp <= 63
    case Save => |s.marks| < MAX_SAVE_DEPTH
    case Restore => |s.marks| > 0
    case Reset => true
  }

  function Step(s: State, op: Op): (State, Addr)
    requires Inv(s) && Enabled(s, op)
  {
    match op
    case Alloc(n, ok1, ok2) => Palloc(s, n, ok1, ok2)
    case Align(exp, ok1, ok2) => (AlignTo(s, Pow2(exp), ok1, ok2).0, Null)
    case Save => (SaveMark(s), Null)
    case Restore => (RestoreMark(s), Null)
    case Reset => (ResetAll(s), Null)
  }

  predicate Positive(ns: seq<nat>) {
    forall i | 0 <= i < |ns| :: ns[i] > 0
  }

  // ---------- every operation keeps the invariant ----------

  /** A change of the blocks that moves the front forward and keeps the snapshots and
      the large blocks, or adds to the latter, keeps the snapshots in order. */
  lemma FrontForward(s: State, t: State)
    requires Inv(s) && ChainInv(t)
    requires t.marks == s.marks && t.size == s.size
    requires |s.blocks| <= |t.blocks| && |s.larges| <= |t.larges|
    requires PosLe(FrontBlock(s), FrontHead(s), FrontBlock(t), FrontHead(t))
    ensures Inv(t)
  {
    forall d | 0 <= d < |t.marks|
      ensures MarkOk(t, t.marks[d])
    {
      assert MarkOk(s, s.marks[d]);
    }
  }

  lemma PallocKeepsChain(s: State, n: nat, ok1: bool, ok2: bool)
    requires ChainInv(s) && n > 0
    ensures ChainInv(Palloc(s, n, ok1, ok2).0)
  {
  }

  lemma PallocMovesFront(s: State, n: nat, ok1: bool, ok2: bool)
    requires ChainInv(s) && n > 0
    ensures var t := Palloc(s, n, ok1, ok2).0;
            && t.marks == s.marks && t.size == s.size && |s.larges| <= |t.larges|
            && 0 < |s.blocks| <= |t.blocks| && PosLe(FrontBlock(s), FrontHead(s), FrontBlock(t), FrontHead(t))
  {
  }

  lemma PallocKeepsInv(s: State, n: nat, ok1: bool, ok2: bool)
    requires Inv(s) && n > 0
    ensures Inv(Palloc(s, n, ok1, ok2).0)
  {
    PallocKeepsChain(s, n, ok1, ok2);
    PallocMovesFront(s, n, ok1, ok2);
    FrontForward(s, Palloc(s, n, ok1, ok2).0);
  }

  /** t is s with its front moved forward and nothing below the old front touched. */
  predicate FrontMoved(s: State, t: State)
    requires |s.blocks| > 0
  {
    && |s.blocks| <= |t.blocks|
    && t == s.(blocks := t.blocks, cur := t.cur, taken := t.taken)
    && t.blocks[..FrontBlock(s)] == s.blocks[..FrontBlock(s)]
    && PosLe(FrontBlock(s), FrontHead(s), FrontBlock(t), FrontHead(t))
  }

  lemma PlaceHeadMovesFront(s: State, h: nat, ok: bool)
    requires s.cur < |s.blocks| && s.blocks[s.cur].head <= h
    ensures FrontMoved(s, PlaceHead(s, h, ok).0)
  {
  }

  lemma AlignMovesFront(s: State, exp: nat, ok1: bool, ok2: bool)
    requires Inv(s)
    ensures FrontMoved(s, AlignTo(s, Pow2(exp), ok1, ok2).0)
  {
    if s.cur < |s.blocks| {
      var h := s.blocks[s.cur].head;
      AlignUpBounds(h, Pow2(exp));
      PlaceHeadMovesFront(s, AlignUp(h, Pow2(exp)), ok2);
    } else if ok1 {
      AlignUpBounds(0, Pow2(exp));
      var u := AppendBlock(s);
      PlaceHeadMovesFront(u, AlignUp(0, Pow2(exp)), ok2);
      var t := PlaceHead(u, AlignUp(0, Pow2(exp)), ok2).0;
      assert t.blocks[..|s.blocks|] == u.blocks[..|s.blocks|] == s.blocks;
      assert t.blocks[..|s.blocks| - 1] == t.blocks[..|s.blocks|][..|s.blocks| - 1];
    }
  }

  lemma PlaceHeadKeepsInv(s: State, h: nat, ok: bool)
    requires Inv(s) && s.cur < |s.blocks| && s.blocks[s.cur].head <= h <= HALF
    ensures Inv(PlaceHead(s, h, ok).0)
  {
    FrontForward(s, PlaceHead(s, h, ok).0);
  }

  lemma AlignKeepsInv(s: State, exp: nat, ok1: bool, ok2: bool)
    requires Inv(s) && exp <= 63
    ensures Inv(AlignTo(s, Pow2(exp), ok1, ok2).0)
  {
    var t := if s.cur == |s.blocks| then AppendBlock(s) else s;
    FrontForward(s, t);
    var h := t.blocks[t.cur].head;
    AlignUpBounded(h, exp);
    AlignUpBounds(h, Pow2(exp));
    PlaceHeadKeepsInv(t, AlignUp(h, Pow2(exp)), ok2);
  }

  lemma SaveKeepsInv(s: State)
    requires Inv(s) && |s.marks| < MAX_SAVE_DEPTH
    ensures Inv(SaveMark(s))
  {
    var t := SaveMark(s);
    forall d | 0 <= d < |t.marks|
      ensures MarkOk(t, t.marks[d])
    {
      if d < |s.marks| { assert MarkOk(s, s.marks[d]); }
    }
  }

  lemma RestoreKeepsInv(s: State)
    requires Inv(s) && |s.marks| > 0
    ensures Inv(RestoreMark(s))
  {
    var last := |s.marks| - 1;
    var m := s.marks[last];
    assert MarkOk(s, m);
    var t := RestoreMark(s);
    forall i | 0 <= i < |t.blocks|
      ensures t.blocks[i].head <= HALF
    {
      if i < m.Base() { assert t.blocks[i] == t.blocks[..m.Base()][i] == s.blocks[i]; }
    }
    forall d | 0 <= d < |t.marks|
      ensures MarkOk(t, t.marks[d])
    {
      assert MarkOk(s, s.marks[d]) && MarkLe(s.marks[d], s.marks[last]);
    }
  }

  /** Every legal operation keeps the invariant: the blocks behind the current one
      are empty, a null current means an exactly full tail, and the snapshots are
      ordered along both chains. */
  lemma StepKeepsInv(s: State, op: Op)
    requires Inv(s) && Enabled(s, op)
    ensures Inv(Step(s, op).0)
  {
    match op
    case Alloc(n, ok1, ok2) => PallocKeepsInv(s, n, ok1, ok2);
    case Align(exp, ok1, ok2) => AlignKeepsInv(s, exp, ok1, ok2);
    case Save => SaveKeepsInv(s);
    case Restore => RestoreKeepsInv(s);
    case Reset =>
  }

  lemma StepSize(s: State, op: Op)
    requires Inv(s) && Enabled(s, op)
    ensures Step(s, op).0.size == s.size
  {
    if op.Align? {
      AlignMovesFront(s, op.exp, op.ok1, op.ok2);
    }
  }

  // ---------- sums of the code stay inside a machine word ----------

  /** No `size_t` sum that palloc or cpool_align forms can wrap. */
  lemma NoWrap(s: State, n: nat, exp: nat)
    requires Inv(s) && s.cur < |s.blocks| && n <= s.size && exp <= 63
    ensures s.blocks[s.cur].head + n < WORD
    ensures s.blocks[s.cur].head + Pow2(exp) - 1 < WORD
  {
    WordIsPow2();
    Pow2Monotone(exp, 63);
  }

  // ---------- alignment ----------

  /** A small request is served at the current head if it fits there, otherwise at the
      start of a block, the next one of the chain or a fresh one; a null current always
      takes a fresh one. It fails only if a fresh one is needed and refused. */
  lemma AllocOffset(s: State, n: nat, ok1: bool, ok2: bool)
    requires Inv(s) && 0 < n <= s.size
    ensures var a := Palloc(s, n, ok1, ok2).1;
            var fits := s.cur < |s.blocks| && s.blocks[s.cur].head + n <= s.size;
            var next := if s.cur < |s.blocks| then s.cur + 1 else s.cur;
            a == if fits then At(s.cur, s.blocks[s.cur].head)
                 else if next < |s.blocks| || ok1 then At(next, 0)
                 else Null
  {
  }

  /** What a small request that is served does to the blocks: the one that serves it grows by
      exactly that many bytes, stays current unless it is exactly full, and no other changes
      but for the block that had to be appended. */
  lemma AllocEffect(s: State, n: nat, ok1: bool, ok2: bool)
    requires Inv(s) && 0 < n <= s.size && Palloc(s, n, ok1, ok2).1.At?
    ensures var (t, a) := Palloc(s, n, ok1, ok2);
            var end := a.off + n;
            && a.block < |t.blocks| && t.blocks[a.block].head == end <= s.size
            && t.cur == (if end == s.size then a.block + 1 else a.block)
            && |t.blocks| == (if a.block < |s.blocks| then |s.blocks| else |s.blocks| + 1)
            && t.taken == s.taken + (if a.block < |s.blocks| then [] else [SmallBlock(a.block)])
            && forall i | 0 <= i < |s.blocks| && i != a.block :: t.blocks[i] == s.blocks[i]
  {
  }

  /** A request that no block can hold gets a large block of its own, behind the others of its
      chain, exactly if node and data are granted; the blocks are not touched. */
  lemma LargeEffect(s: State, n: nat, ok1: bool, ok2: bool)
    requires Inv(s) && n > s.size
    ensures var (t, a) := Palloc(s, n, ok1, ok2);
            && a == (if ok1 && ok2 then Large(s.born) else Null)
            && t.larges == (if ok1 && ok2 then s.larges + [s.born] else s.larges)
            && t.blocks == s.blocks && t.cur == s.cur && t.marks == s.marks
  {
  }

  /** What cpool_align does, case by case. A current block whose head, rounded up, stays
      inside it keeps being filled from there: no block is appended. One whose head leaves
      it, rounded up, is left for exactly one appended block. A null current takes exactly
      one appended block, or two if blocks have no room at all. The flag is false exactly if
      an append that was needed was refused. */
  lemma AlignCases(s: State, a: nat, ok1: bool, ok2: bool)
    requires Inv(s) && a > 0
    ensures var (t, flag) := AlignTo(s, a, ok1, ok2);
            var n := |s.blocks|;
            if s.cur < n then
              var h := AlignUp(s.blocks[s.cur].head, a);
              && (h < s.size ==> && flag && t.cur == s.cur && t.taken == s.taken && |t.blocks| == n
                                 && t.blocks[s.cur].head == h)
              && (h >= s.size ==> && flag == ok2
                                  && |t.blocks| == n + (if ok2 then 1 else 0)
                                  && t.taken == s.taken + (if ok2 then [SmallBlock(n)] else [])
                                  && t.cur == (if ok2 then n else s.cur) && t.blocks[s.cur].head == h
                                  && (ok2 ==> t.blocks[n].head == 0))
              && forall i | 0 <= i < n && i != s.cur :: t.blocks[i] == s.blocks[i]
            else if !ok1 then t == s && !flag
            else if s.size > 0 then
              && flag && t.cur == n && t.blocks == s.blocks + [EMPTY] && t.taken == s.taken + [SmallBlock(n)]
            else flag == ok2 && |t.blocks| == n + 1 + (if ok2 then 1 else 0)
  {
    AlignUpZero(a);
  }

  /** Where the small request behind a successful cpool_align goes: to the rounded head if it
      fits there, otherwise to the start of the block behind; behind a null current, and
      behind a head that left its block, to the start of the block that was appended. */
  lemma AlignPlaces(s: State, a: nat, ok1: bool, ok2: bool, n: nat, ok3: bool, ok4: bool)
    requires Inv(s) && a > 0 && 0 < n <= s.size && AlignTo(s, a, ok1, ok2).1
    ensures var t := AlignTo(s, a, ok1, ok2).0;
            t.cur <= |t.blocks| &&
            var r := Palloc(t, n, ok3, ok4).1;
            if s.cur < |s.blocks| && AlignUp(s.blocks[s.cur].head, a) < s.size then
              var h := AlignUp(s.blocks[s.cur].head, a);
              r == if h + n <= s.size then At(s.cur, h)
                   else if s.cur + 1 < |s.blocks| || ok3 then At(s.cur + 1, 0)
                   else Null
            else r == At(|s.blocks|, 0)
  {
    AlignUpZero(a);
  }

  lemma AlignedHead(s: State, a: nat, ok1: bool, ok2: bool)
    requires Inv(s) && a > 0 && AlignTo(s, a, ok1, ok2).1
    ensures var t := AlignTo(s, a, ok1, ok2).0;
            && t.cur < |t.blocks| && t.size == s.size
            && t.blocks[t.cur].head in {0, AlignUp(if s.cur == |s.blocks| then 0 else s.blocks[s.cur].head, a)}
  {
  }

  /** After a successful cpool_align, the next small request starts at a multiple of
      the alignment, whether it is served in place, from the next block of the chain
      or from a fresh block. */
  lemma AlignedAlloc(s: State, exp: nat, ok1: bool, ok2: bool, t: State, n: nat, ok3: bool, ok4: bool)
    requires Inv(s) && exp <= 63 && 0 < n <= s.size
    requires AlignTo(s, Pow2(exp), ok1, ok2) == (t, true)
    ensures Inv(t) && t.size == s.size
    ensures var r := Palloc(t, n, ok3, ok4).1;
            r.Null? || (r.At? && r.off % Pow2(exp) == 0)
  {
    var a := Pow2(exp);
    var h := if s.cur == |s.blocks| then 0 else s.blocks[s.cur].head;
    AlignedHead(s, a, ok1, ok2);
    AlignKeepsInv(s, exp, ok1, ok2);
    AllocOffset(t, n, ok3, ok4);
    var r := Palloc(t, n, ok3, ok4).1;
    assert r.Null? || r.off == 0 || r.off == AlignUp(h, a);
    AlignUpBounds(h, a);
  }
}
