/** How well the blocks are filled when nobody asks for alignment. */
module PoolPacking {
  import opened Bits
  import opened PoolSpec
  import opened PoolRegions

  function SumHeads(bs: seq<Block>): nat {
    if bs == [] then 0 else SumHeads(bs[..|bs| - 1]) + bs[|bs| - 1].head
  }

  /** Bytes in the small regions in use. */
  function LiveBytes(live: seq<Region>): nat {
    if live == [] then 0
    else
      var r := live[|live| - 1];
      LiveBytes(live[..|live| - 1]) + if r.addr.At? then r.size else 0
  }

  /** Two neighbours of which the second is in use hold more than one block together. */
  predicate Tight(size: nat, h: nat, h': nat) {
    h' > 0 ==> h + h' > size
  }

  predicate TightAt(s: State, i: nat) {
    0 < i < |s.blocks| ==> Tight(s.size, s.blocks[i - 1].head, s.blocks[i].head)
  }

  ghost predicate Packed(s: State) {
    && (forall i | 0 <= i < |s.blocks| :: s.blocks[i].head <= s.size)
    && (forall i | 0 <= i < |s.blocks| :: TightAt(s, i))
    && (0 < s.cur < |s.blocks| ==> s.blocks[s.cur - 1].head + s.blocks[s.cur].head >= s.size)
    && (forall i | 0 <= i < s.cur && i < |s.blocks| :: s.blocks[i].head > 0)
  }

  predicate PackedMark(s: State, m: Mark) {
    && m.head <= s.size
    && (0 < m.Base() <= |s.blocks| ==>
          && Tight(s.size, s.blocks[m.Base() - 1].head, m.head)
          && s.blocks[m.Base() - 1].head + m.head >= s.size)
  }

  /** No byte of a head is unaccounted for: neither now nor at any snapshot. */
  predicate Counted(s: State, m: Mark, live: seq<Region>) {
    m.Base() <= |s.blocks| && SumHeads(s.blocks[..m.Base()]) + m.head == LiveBytes(live)
  }

  ghost predicate MarksPacked(c: Config) {
    && |c.l.cuts| == |c.s.marks|
    && forall d | 0 <= d < |c.s.marks| ::
         && PackedMark(c.s, c.s.marks[d]) && c.l.cuts[d] <= |c.l.live|
         && Counted(c.s, c.s.marks[d], c.l.live[..c.l.cuts[d]])
  }

  ghost predicate Dense(c: Config) {
    && Packed(c.s) && MarksPacked(c)
    && SumHeads(c.s.blocks) == LiveBytes(c.l.live)
  }

  // ---------- sums ----------

  lemma SumAppend(bs: seq<Block>, b: Block)
    ensures SumHeads(bs + [b]) == SumHeads(bs) + b.head
  {
    assert (bs + [b])[..|bs|] == bs;
  }

  lemma {:induction false} SumUpdate(bs: seq<Block>, i: nat, b: Block)
    requires i < |bs|
    ensures SumHeads(bs[i := b]) == SumHeads(bs) - bs[i].head + b.head
  {
    var last := |bs| - 1;
    if i == last {
      assert bs[i := b][..last] == bs[..last];
    } else {
      SumUpdate(bs[..last], i, b);
      assert bs[i := b][..last] == bs[..last][i := b];
    }
  }

  lemma {:induction false} SumTail(bs: seq<Block>, k: nat)
    requires k <= |bs|
    ensures SumHeads(bs[..k]) <= SumHeads(bs)
    ensures (forall i | k <= i < |bs| :: bs[i].head == 0) ==> SumHeads(bs[..k]) == SumHeads(bs)
    decreases |bs|
  {
    if k == |bs| {
      assert bs[..k] == bs;
    } else {
      var init := bs[..|bs| - 1];
      SumTail(init, k);
      assert init[..k] == bs[..k];
    }
  }

  lemma LiveAppend(live: seq<Region>, r: Region)
    ensures LiveBytes(live + [r]) == LiveBytes(live) + if r.addr.At? then r.size else 0
  {
    assert (live + [r])[..|live|] == live;
  }

  // ---------- steps ----------

  ghost predicate PackedBelow(s: State) {
    && s.cur < |s.blocks|
    && (forall i | 0 <= i < |s.blocks| ::
          s.blocks[i].head <= s.size && (i < s.cur ==> s.blocks[i].head > 0 && TightAt(s, i)))
    && (forall i | s.cur < i < |s.blocks| :: s.blocks[i] == EMPTY)
  }

  lemma BumpPacked(s: State, n: nat)
    requires PackedBelow(s) && n > 0 && s.blocks[s.cur].head + n <= s.size
    requires s.cur > 0 ==> s.blocks[s.cur - 1].head + s.blocks[s.cur].head + n > s.size
    ensures Packed(Bump(s, n).0)
  {
    var t := Bump(s, n).0;
    forall i | 0 <= i < |t.blocks|
      ensures TightAt(t, i)
    {
      assert i < s.cur ==> TightAt(s, i);
    }
  }

  /** The block a small request lands in is preceded by one it did not fit into. */
  lemma TargetReady(s: State, n: nat, u: State)
    requires ChainInv(s) && 0 < n <= s.size && Packed(s)
    requires u == if Target(s, n) < |s.blocks| then s.(cur := Target(s, n)) else AppendBlock(s)
    ensures PackedBelow(u) && u.blocks[u.cur].head + n <= u.size
    ensures u.cur > 0 ==> u.blocks[u.cur - 1].head + u.blocks[u.cur].head + n > u.size
  {
    forall i | 0 <= i < u.cur
      ensures TightAt(u, i)
    {
      assert TightAt(s, i);
    }
  }

  lemma AllocPacked(s: State, n: nat, ok1: bool, ok2: bool)
    requires Inv(s) && n > 0 && Packed(s)
    ensures Packed(Palloc(s, n, ok1, ok2).0)
  {
    var t := Palloc(s, n, ok1, ok2).0;
    if n > s.size || (Target(s, n) >= |s.blocks| && !ok1) {
      assert t.blocks == s.blocks && t.cur == s.cur && t.size == s.size;
      forall i | 0 <= i < |t.blocks| ensures TightAt(t, i) { assert TightAt(s, i); }
    } else {
      var u := if Target(s, n) < |s.blocks| then s.(cur := Target(s, n)) else AppendBlock(s);
      TargetReady(s, n, u);
      BumpPacked(u, n);
    }
  }

  lemma AllocSum(s: State, n: nat, ok1: bool, ok2: bool)
    requires Inv(s) && n > 0
    ensures var (t, a) := Palloc(s, n, ok1, ok2);
            SumHeads(t.blocks) == SumHeads(s.blocks) + if a.At? then n else 0
  {
    var (t, a) := Palloc(s, n, ok1, ok2);
    if a.At? {
      var u := if Target(s, n) < |s.blocks| then s else AppendBlock(s);
      SumAppend(s.blocks, EMPTY);
      var b := u.blocks[a.block];
      assert t.blocks == u.blocks[a.block := t.blocks[a.block]];
      SumUpdate(u.blocks, a.block, t.blocks[a.block]);
    }
  }

  lemma CountedSame(s: State, t: State, m: Mark, live: seq<Region>, f: nat)
    requires Counted(s, m, live) && PackedMark(s, m)
    requires m.Base() <= f <= |s.blocks| && f <= |t.blocks| && s.blocks[..f] == t.blocks[..f]
    requires t.size == s.size
    ensures Counted(t, m, live) && PackedMark(t, m)
  {
    ShorterPrefix(s.blocks, t.blocks, m.Base(), f);
    if m.Base() > 0 {
      assert s.blocks[m.Base() - 1] == s.blocks[..f][m.Base() - 1] == t.blocks[m.Base() - 1];
    }
  }

  /** Growing the blocks behind every snapshot, and the list of regions, keeps what the
      snapshots say. */
  lemma MarksForward(c: Config, c': Config)
    requires Good(c) && MarksPacked(c)
    requires c'.s.marks == c.s.marks && c'.s.size == c.s.size && |c.s.blocks| <= |c'.s.blocks|
    requires c'.s.blocks[..FrontBlock(c.s)] == c.s.blocks[..FrontBlock(c.s)]
    requires c'.l.cuts == c.l.cuts && c.l.live <= c'.l.live
    ensures MarksPacked(c')
  {
    forall d | 0 <= d < |c'.s.marks|
      ensures PackedMark(c'.s, c'.s.marks[d]) && c.l.cuts[d] <= |c'.l.live|
      ensures Counted(c'.s, c'.s.marks[d], c'.l.live[..c.l.cuts[d]])
    {
      assert MarkOk(c.s, c.s.marks[d]);
      assert c'.l.live[..c.l.cuts[d]] == c.l.live[..c.l.cuts[d]];
      CountedSame(c.s, c'.s, c.s.marks[d], c.l.live[..c.l.cuts[d]], FrontBlock(c.s));
    }
  }

  lemma AllocDense(c: Config, n: nat, ok1: bool, ok2: bool)
    requires Good(c) && Dense(c) && n > 0
    ensures Dense(Next(c, Alloc(n, ok1, ok2)))
  {
    var c' := Next(c, Alloc(n, ok1, ok2));
    var (t, a) := Palloc(c.s, n, ok1, ok2);
    assert c'.s == t && c'.l == Record(c.l, Alloc(n, ok1, ok2), a);
    assert t.size == c.s.size by { StepSize(c.s, Alloc(n, ok1, ok2)); }
    AllocPacked(c.s, n, ok1, ok2);
    AllocKeeps(c.s, n, ok1, ok2);
    MarksForward(c, c');
    assert SumHeads(c'.s.blocks) == LiveBytes(c'.l.live) by {
      AllocSum(c.s, n, ok1, ok2);
      LiveAppend(c.l.live, Region(a, n));
    }
  }

  /** The snapshot taken now describes the blocks as they are. */
  lemma FreshMark(s: State, live: seq<Region>)
    requires Inv(s) && Packed(s) && SumHeads(s.blocks) == LiveBytes(live)
    ensures var m := SaveMark(s).marks[|s.marks|]; PackedMark(s, m) && Counted(s, m, live)
  {
    var f := FrontBlock(s);
    SumTail(s.blocks, f + 1);
    assert s.blocks[..f + 1][..f] == s.blocks[..f];
    assert TightAt(s, f);
  }

  lemma SaveDense(c: Config)
    requires Good(c) && Dense(c) && Enabled(c.s, Save)
    ensures Dense(Next(c, Save))
  {
    var c' := Next(c, Save);
    SaveMarksPacked(c, c');
    forall i | 0 <= i < |c'.s.blocks| ensures TightAt(c'.s, i) { assert TightAt(c.s, i); }
  }

  lemma SaveMarksPacked(c: Config, c': Config)
    requires Inv(c.s) && Dense(c) && c' == Config(SaveMark(c.s), Record(c.l, Save, Null))
    ensures MarksPacked(c')
  {
    FreshMark(c.s, c.l.live);
    assert c.l.live[..|c.l.live|] == c.l.live;
    forall d | 0 <= d < |c'.s.marks|
      ensures PackedMark(c'.s, c'.s.marks[d]) && c'.l.cuts[d] <= |c'.l.live|
      ensures Counted(c'.s, c'.s.marks[d], c'.l.live[..c'.l.cuts[d]])
    {
      if d < |c.s.marks| {
        assert PackedMark(c.s, c.s.marks[d]) && Counted(c.s, c.s.marks[d], c.l.live[..c.l.cuts[d]]);
      }
    }
  }

  lemma RewindPacked(s: State, m: Mark)
    requires Inv(s) && Packed(s) && MarkOk(s, m) && PackedMark(s, m)
    ensures Packed(s.(blocks := Rewound(s.blocks, m.Base(), m.head, m.full), cur := m.Base()))
  {
    var b, bs := m.Base(), Rewound(s.blocks, m.Base(), m.head, m.full);
    assert forall i | 0 <= i < b :: bs[i] == bs[..b][i] == s.blocks[..b][i];
    var t := s.(blocks := bs, cur := b);
    forall i | 0 <= i < |bs|
      ensures TightAt(t, i)
    {
      assert TightAt(s, i);
    }
  }

  lemma RewindSum(s: State, m: Mark)
    requires |s.blocks| > 0 && MarkOk(s, m)
    ensures SumHeads(Rewound(s.blocks, m.Base(), m.head, m.full)) == SumHeads(s.blocks[..m.Base()]) + m.head
  {
    var b, bs := m.Base(), Rewound(s.blocks, m.Base(), m.head, m.full);
    SumTail(bs, b + 1);
    assert bs[..b + 1][..b] == bs[..b];
  }

  lemma RestoreMarks(c: Config, c': Config)
    requires Good(c) && MarksPacked(c) && Enabled(c.s, Restore) && c' == Next(c, Restore)
    ensures MarksPacked(c')
  {
    var last := |c.s.marks| - 1;
    var m := c.s.marks[last];
    assert MarkOk(c.s, m) && CutOk(c.s, c.l, last);
    forall d | 0 <= d < |c'.s.marks|
      ensures PackedMark(c'.s, c'.s.marks[d]) && c'.l.cuts[d] <= |c'.l.live|
      ensures Counted(c'.s, c'.s.marks[d], c'.l.live[..c'.l.cuts[d]])
    {
      assert MarkLe(c.s.marks[d], c.s.marks[last]) && c.l.cuts[d] <= c.l.cuts[last];
      assert c'.l.live[..c.l.cuts[d]] == c.l.live[..c.l.cuts[d]];
      CountedSame(c.s, c'.s, c.s.marks[d], c.l.live[..c.l.cuts[d]], m.Base());
    }
  }

  lemma RestoreDense(c: Config)
    requires Good(c) && Dense(c) && Enabled(c.s, Restore)
    ensures Dense(Next(c, Restore))
  {
    var last := |c.s.marks| - 1;
    var m, c' := c.s.marks[last], Next(c, Restore);
    assert MarkOk(c.s, m) && PackedMark(c.s, m) && Counted(c.s, m, c.l.live[..c.l.cuts[last]]);
    RewindPacked(c.s, m);
    RewindSum(c.s, m);
    RestoreMarks(c, c');
    PackedCopy(c.s.(blocks := c'.s.blocks, cur := c'.s.cur), c'.s);
  }

  lemma PackedCopy(s: State, t: State)
    requires Packed(s) && t.blocks == s.blocks && t.cur == s.cur && t.size == s.size
    ensures Packed(t)
  {
    forall i | 0 <= i < |t.blocks| ensures TightAt(t, i) { assert TightAt(s, i); }
  }

  lemma ResetDense(c: Config)
    requires Good(c)
    ensures Dense(Next(c, Reset))
  {
    var t := Next(c, Reset).s;
    SumTail(t.blocks, 0);
    assert t.blocks[..0] == [];
  }

  ghost predicate NoAlign(ops: seq<Op>) {
    forall i | 0 <= i < |ops| :: !ops[i].Align?
  }

  lemma {:induction false} ExecDense(c: Config, ops: seq<Op>)
    requires Good(c) && Dense(c) && NoAlign(ops) && Exec(c, ops).Running?
    ensures Dense(Exec(c, ops).c)
    decreases |ops|
  {
    if ops != [] {
      match ops[0] {
        case Alloc(n, ok1, ok2) => AllocDense(c, n, ok1, ok2);
        case Save => SaveDense(c);
        case Restore => RestoreDense(c);
        case Reset => ResetDense(c);
      }
      ExecDense(Next(c, ops[0]), ops[1..]);
    }
  }

  /** k blocks in use hold more than floor(k/2) whole blocks. */
  lemma {:induction false} PairsAddUp(s: State, k: nat)
    requires Packed(s) && 2 <= k <= |s.blocks|
    requires forall i | 0 <= i < k :: s.blocks[i].head > 0
    ensures SumHeads(s.blocks[..k]) > k / 2 * s.size
    decreases k
  {
    assert TightAt(s, k - 1);
    assert s.blocks[..k][..k - 1] == s.blocks[..k - 1];
    assert s.blocks[..k - 1][..k - 2] == s.blocks[..k - 2];
    assert SumHeads(s.blocks[..k]) == SumHeads(s.blocks[..k - 1]) + s.blocks[k - 1].head;
    assert SumHeads(s.blocks[..k - 1]) == SumHeads(s.blocks[..k - 2]) + s.blocks[k - 2].head;
    if k >= 4 {
      PairsAddUp(s, k - 2);
    }
    OneMorePair(k, s.size);
  }

  lemma OneMorePair(k: nat, size: nat)
    requires k >= 2
    ensures k / 2 * size == (k - 2) / 2 * size + size
  {
    assert k / 2 == (k - 2) / 2 + 1;
  }

  /** In every run without alignment the blocks in use come first in the chain, any two
      neighbours among them hold more than one block's worth, and k >= 2 of them mean
      that the regions in use add up to more than floor(k/2) blocks. */
  lemma NextFitBound(size: nat, ops: seq<Op>, k: nat)
    requires size < HALF && NoAlign(ops) && Exec(Start(size), ops).Running?
    ensures var c := Exec(Start(size), ops).c;
            && (forall i, j | 0 <= i < j < |c.s.blocks| && c.s.blocks[j].head > 0 :: c.s.blocks[i].head > 0)
            && (forall i | 0 <= i < |c.s.blocks| :: TightAt(c.s, i))
            && (2 <= k <= |c.s.blocks| && c.s.blocks[k - 1].head > 0 ==> LiveBytes(c.l.live) > k / 2 * size)
  {
    var c0 := Start(size);
    assert SumHeads(c0.s.blocks) == 0;
    ExecDense(c0, ops);
    ExecSize(c0, ops);
    DenseBound(Exec(c0, ops).c, k);
  }

  lemma DenseBound(c: Config, k: nat)
    requires Good(c) && Dense(c)
    ensures forall i, j | 0 <= i < j < |c.s.blocks| && c.s.blocks[j].head > 0 :: c.s.blocks[i].head > 0
    ensures 2 <= k <= |c.s.blocks| && c.s.blocks[k - 1].head > 0 ==> LiveBytes(c.l.live) > k / 2 * c.s.size
  {
    forall i, j | 0 <= i < j < |c.s.blocks| && c.s.blocks[j].head > 0
      ensures c.s.blocks[i].head > 0
    {
      assert c.s.cur >= j;
    }
    if 2 <= k <= |c.s.blocks| && c.s.blocks[k - 1].head > 0 {
      PairsAddUp(c.s, k);
      SumTail(c.s.blocks, k);
    }
  }

  lemma {:induction false} ExecSize(c: Config, ops: seq<Op>)
    requires Good(c) && Exec(c, ops).Running?
    ensures Exec(c, ops).c.s.size == c.s.size
    decreases |ops|
  {
    if ops != [] {
      StepSize(c.s, ops[0]);
      ExecSize(Next(c, ops[0]), ops[1..]);
    }
  }
}
