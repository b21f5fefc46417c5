/** Repeating the requests of a frame after restoring it. */
module PoolReplay {
  import opened PoolSpec

  /** Serves the requests in order, with every system allocation succeeding. */
  function Allocs(s: State, ns: seq<nat>): (r: (State, seq<Addr>))
    requires Inv(s) && Positive(ns)
    ensures Inv(r.0) && |r.1| == |ns|
    ensures r.0.marks == s.marks && |s.blocks| <= |r.0.blocks| && r.0.size == s.size
    decreases |ns|
  {
    if ns == [] then (s, [])
    else
      PallocKeepsInv(s, ns[0], true, true);
      var (t, a) := Palloc(s, ns[0], true, true);
      var (u, rest) := Allocs(t, ns[1..]);
      (u, [a] + rest)
  }

  /** Small requests get the same address; large ones are fresh both times. */
  predicate SamePlace(a: Addr, b: Addr) {
    a == b || (a.Large? && b.Large?)
  }

  /** The replay b is where the first run a was: at the same place of the same block, or
      still at the end of the full block that a has left with a null current. */
  ghost predicate InStep(a: State, b: State)
    requires ChainInv(a) && ChainInv(b)
  {
    && a.size == b.size
    && |a.blocks| <= |b.blocks|
    && (|| (a.cur == b.cur < |a.blocks| && a.blocks[a.cur].head == b.blocks[b.cur].head)
        || (a.cur == b.cur == |a.blocks| && (b.cur < |b.blocks| ==> b.blocks[b.cur].head == 0))
        || (a.cur == |a.blocks| == b.cur + 1 && b.blocks[b.cur].head == b.size))
  }

  lemma ReplayStep(a: State, b: State, n: nat)
    requires Inv(a) && Inv(b) && n > 0 && InStep(a, b)
    requires |Palloc(a, n, true, true).0.blocks| <= |b.blocks|
    ensures var (a', x) := Palloc(a, n, true, true);
            var (b', y) := Palloc(b, n, true, true);
            && Inv(a') && Inv(b') && InStep(a', b')
            && |b'.blocks| == |b.blocks| && SamePlace(x, y)
  {
    PallocKeepsInv(a, n, true, true);
    PallocKeepsInv(b, n, true, true);
  }

  lemma {:induction false} ReplayFrom(a: State, b: State, ns: seq<nat>)
    requires Inv(a) && Inv(b) && Positive(ns) && InStep(a, b)
    requires |Allocs(a, ns).0.blocks| <= |b.blocks|
    ensures |Allocs(b, ns).0.blocks| == |b.blocks|
    ensures forall i | 0 <= i < |ns| :: SamePlace(Allocs(a, ns).1[i], Allocs(b, ns).1[i])
    decreases |ns|
  {
    if ns != [] {
      ReplayStep(a, b, ns[0]);
      ReplayFrom(Palloc(a, ns[0], true, true).0, Palloc(b, ns[0], true, true).0, ns[1..]);
    }
  }

  /** After save, a list of requests and restore, repeating the list yields the same
      small addresses and appends no block, also from a null current. */
  lemma Replay(s: State, ns: seq<nat>)
    requires Inv(s) && |s.marks| < MAX_SAVE_DEPTH && Positive(ns)
    ensures Inv(SaveMark(s))
    ensures var (first, as1) := Allocs(SaveMark(s), ns);
            MarkOk(first, first.marks[|s.marks|]) &&
            var back := RestoreMark(first);
            Inv(back) && |back.blocks| == |first.blocks| &&
            var (again, as2) := Allocs(back, ns);
            && |again.blocks| == |back.blocks|
            && forall i | 0 <= i < |ns| :: SamePlace(as1[i], as2[i])
  {
    SaveKeepsInv(s);
    var first := Allocs(SaveMark(s), ns).0;
    assert MarkOk(first, first.marks[|s.marks|]);
    RestoreKeepsInv(first);
    ReplayFrom(SaveMark(s), RestoreMark(first), ns);
  }
}
