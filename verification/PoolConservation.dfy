/** Every chunk the pool obtains from the system is returned exactly once. */
module PoolConservation {
  import opened Bits
  import opened PoolSpec
  import opened PoolRegions

  /** The chunks the pool has not yet returned. */
  function Held(s: State): seq<Chunk> {
    SmallBlocks(|s.blocks|) + Release(s.larges) + [PoolRecord]
  }

  predicate Known(s: State, c: Chunk) {
    match c
    case PoolRecord => true
    case SmallBlock(i) => i < |s.blocks|
    case LargeNode(id) => id < s.born
    case LargeData(id) => id < s.born
  }

  ghost predicate Distinct(cs: seq<Chunk>) {
    forall i, j | 0 <= i < j < |cs| :: cs[i] != cs[j]
  }

  ghost predicate AllKnown(s: State, cs: seq<Chunk>) {
    forall i | 0 <= i < |cs| :: Known(s, cs[i])
  }

  ghost predicate Accounted(s: State) {
    && AllKnown(s, s.taken) && Distinct(s.taken)
    && multiset(s.taken) == multiset(s.freed) + multiset(Held(s))
  }

  /** Chunks unknown before join the known ones. */
  lemma Join(s: State, t: State, more: seq<Chunk>)
    requires AllKnown(s, s.taken) && Distinct(s.taken) && Distinct(more)
    requires AllKnown(t, more) && forall c | c in more :: !Known(s, c)
    requires |s.blocks| <= |t.blocks| && s.born <= t.born && t.taken == s.taken + more
    ensures AllKnown(t, t.taken) && Distinct(t.taken)
  {
    forall i | 0 <= i < |t.taken|
      ensures Known(t, t.taken[i]) && (i < |s.taken| ==> t.taken[i] !in more)
    {
      if i < |s.taken| { assert Known(s, s.taken[i]); }
    }
  }

  lemma {:induction false} ReleaseAppend(a: seq<nat>, b: seq<nat>)
    ensures Release(a + b) == Release(a) + Release(b)
  {
    if b == [] {
      assert a + b == a;
    } else {
      var last := |b| - 1;
      assert (a + b)[..|a + b| - 1] == a + b[..last];
      ReleaseAppend(a, b[..last]);
    }
  }

  lemma SmallBlocksSnoc(n: nat)
    ensures SmallBlocks(n + 1) == SmallBlocks(n) + [SmallBlock(n)]
  {
  }

  lemma AppendAccounted(s: State)
    requires Accounted(s)
    ensures Accounted(AppendBlock(s))
  {
    var t, n := AppendBlock(s), |s.blocks|;
    Join(s, t, [SmallBlock(n)]);
    SmallBlocksSnoc(n);
    assert multiset(Held(t))
        == multiset(SmallBlocks(n)) + multiset{SmallBlock(n)} + multiset(Release(s.larges)) + multiset{PoolRecord};
  }

  /** Changing only heads, snapshots or the current position moves no chunk. */
  lemma SameAccounted(s: State, t: State)
    requires Accounted(s)
    requires |t.blocks| == |s.blocks| && t.larges == s.larges && t.born == s.born
    requires t.taken == s.taken && t.freed == s.freed
    ensures Accounted(t)
  {
    forall i | 0 <= i < |t.taken| ensures Known(t, t.taken[i]) { assert Known(s, s.taken[i]); }
  }

  lemma ReleaseOneMore(ids: seq<nat>, id: nat)
    ensures multiset(Release(ids + [id])) == multiset(Release(ids)) + multiset([LargeNode(id), LargeData(id)])
  {
    assert (ids + [id])[..|ids|] == ids;
    var more := [LargeData(id), LargeNode(id)];
    assert Release(ids + [id]) == Release(ids) + more;
    assert multiset(more) == multiset([LargeNode(id), LargeData(id)]);
  }

  lemma LinkAccounted(s: State)
    requires Accounted(s)
    ensures Accounted(AllocLarge(s, true, true).0)
  {
    var t, more := AllocLarge(s, true, true).0, [LargeNode(s.born), LargeData(s.born)];
    Join(s, t, more);
    LinkHeld(s, t);
    assert multiset(t.taken) == multiset(s.taken) + multiset(more);
  }

  /** Two more chunks are held. */
  lemma LinkHeld(s: State, t: State)
    requires |t.blocks| == |s.blocks| && t.larges == s.larges + [s.born]
    ensures multiset(Held(t)) == multiset(Held(s)) + multiset([LargeNode(s.born), LargeData(s.born)])
  {
    ReleaseOneMore(s.larges, s.born);
    var small, pool := multiset(SmallBlocks(|s.blocks|)), multiset([PoolRecord]);
    assert multiset(Held(t)) == small + multiset(Release(t.larges)) + pool;
    assert multiset(Held(s)) == small + multiset(Release(s.larges)) + pool;
  }

  lemma NodeAccounted(s: State)
    requires Accounted(s)
    ensures Accounted(AllocLarge(s, true, false).0)
  {
    Join(s, AllocLarge(s, true, false).0, [LargeNode(s.born)]);
  }

  lemma LargeAccounted(s: State, ok1: bool, ok2: bool)
    requires Accounted(s)
    ensures Accounted(AllocLarge(s, ok1, ok2).0)
  {
    LinkAccounted(s);
    NodeAccounted(s);
  }

  lemma ReleaseSplit(ids: seq<nat>, m: nat)
    requires m <= |ids|
    ensures multiset(Release(ids)) == multiset(Release(ids[..m])) + multiset(Release(ids[m..]))
  {
    assert ids == ids[..m] + ids[m..];
    ReleaseAppend(ids[..m], ids[m..]);
  }

  lemma DropAccounted(s: State, m: nat, t: State)
    requires Accounted(s) && m <= |s.larges|
    requires |t.blocks| == |s.blocks| && t.larges == s.larges[..m] && t.born == s.born
    requires t.taken == s.taken && t.freed == s.freed + Release(s.larges[m..])
    ensures Accounted(t)
  {
    forall i | 0 <= i < |t.taken| ensures Known(t, t.taken[i]) { assert Known(s, s.taken[i]); }
    ReleaseSplit(s.larges, m);
  }

  lemma AllocAccounted(s: State, n: nat, ok1: bool, ok2: bool)
    requires Inv(s) && Accounted(s)
    ensures Accounted(Palloc(s, n, ok1, ok2).0)
  {
    var t := Palloc(s, n, ok1, ok2).0;
    if n > s.size {
      LargeAccounted(s, ok1, ok2);
    } else if Target(s, n) < |s.blocks| || !ok1 {
      SameAccounted(s, t);
    } else {
      AppendAccounted(s);
      SameAccounted(AppendBlock(s), t);
    }
  }

  lemma PlaceAccounted(s: State, h: nat, ok: bool)
    requires s.cur < |s.blocks| && Accounted(s)
    ensures Accounted(PlaceHead(s, h, ok).0)
  {
    var t := s.(blocks := s.blocks[s.cur := Block(h, h >= s.size || s.blocks[s.cur].full)]);
    SameAccounted(s, t);
    AppendAccounted(t);
  }

  lemma AlignAccounted(s: State, a: nat, ok1: bool, ok2: bool)
    requires Inv(s) && Accounted(s) && a > 0
    ensures Accounted(AlignTo(s, a, ok1, ok2).0)
  {
    AppendAccounted(s);
    if s.cur < |s.blocks| {
      PlaceAccounted(s, AlignUp(s.blocks[s.cur].head, a), ok2);
    } else {
      PlaceAccounted(AppendBlock(s), AlignUp(0, a), ok2);
    }
  }

  lemma StepAccounted(s: State, op: Op)
    requires Inv(s) && Enabled(s, op) && Accounted(s)
    ensures Accounted(Step(s, op).0)
  {
    var t := Step(s, op).0;
    match op
    case Alloc(n, ok1, ok2) => AllocAccounted(s, n, ok1, ok2);
    case Align(exp, ok1, ok2) => AlignAccounted(s, Pow2(exp), ok1, ok2);
    case Save => SameAccounted(s, t);
    case Restore =>
      var m := s.marks[|s.marks| - 1];
      assert MarkOk(s, m);
      DropAccounted(s, m.large, t);
    case Reset =>
      assert s.larges[0..] == s.larges;
      DropAccounted(s, 0, t);
  }

  lemma {:induction false} ExecAccounted(c: Config, ops: seq<Op>)
    requires Good(c) && Accounted(c.s)
    ensures Exec(c, ops).Running? ==> Accounted(Exec(c, ops).c.s)
    decreases |ops|
  {
    if ops != [] && Enabled(c.s, ops[0]) {
      StepAccounted(c.s, ops[0]);
      ExecAccounted(Next(c, ops[0]), ops[1..]);
    }
  }

  lemma {:induction false} DistinctOnce<T>(s: seq<T>, x: T)
    requires forall i, j | 0 <= i < j < |s| :: s[i] != s[j]
    ensures multiset(s)[x] == if x in s then 1 else 0
  {
    if s != [] {
      var init, last := s[..|s| - 1], s[|s| - 1];
      DistinctOnce(init, x);
      assert s == init + [last];
    }
  }

  lemma StartAccounted(size: nat)
    requires size < HALF
    ensures Accounted(Start(size).s)
  {
    assert Release([]) == [];
    assert SmallBlocks(1) == [SmallBlock(0)];
    assert Held(Start(size).s) == [SmallBlock(0), PoolRecord];
  }

  lemma AccountedOnce(s: State, c: Chunk)
    requires Accounted(s)
    ensures multiset(s.freed)[c] + multiset(Held(s))[c] == (if c in s.taken then 1 else 0)
    ensures multiset(Uninit(s))[c] == (if c in s.taken then 1 else 0)
  {
    DistinctOnce(s.taken, c);
    assert Uninit(s) == s.freed + Held(s);
  }

  /** After any run and the final teardown, every chunk ever obtained has been returned
      exactly once, and nothing else has. Before it, each is either held or returned. */
  lemma FreedExactlyOnce(size: nat, ops: seq<Op>, c: Chunk)
    requires size < HALF && Exec(Start(size), ops).Running?
    ensures var s := Exec(Start(size), ops).c.s;
            && multiset(Uninit(s))[c] == (if c in s.taken then 1 else 0)
            && multiset(s.freed)[c] + multiset(Held(s))[c] == (if c in s.taken then 1 else 0)
  {
    StartAccounted(size);
    ExecAccounted(Start(size), ops);
    AccountedOnce(Exec(Start(size), ops).c.s, c);
  }
}
