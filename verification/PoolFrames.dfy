/** How the parsers use the pool: scratch copies inside a snapshot, results behind it. */
module PoolFrames {
  import opened PoolSpec
  import opened PoolRegions

  /** q is inside one snapshot more than p, and holds all that p did. */
  ghost predicate Framed(p: Config, q: Config) {
    Good(p) && Good(q) && Kept(p, q) && |q.s.marks| == |p.s.marks| + 1
  }

  /** cpool_save. */
  function Open(p: Config): (q: Config)
    requires Good(p) && |p.s.marks| < MAX_SAVE_DEPTH
    ensures Framed(p, q)
  {
    Next(p, Save)
  }

  /** A scratch copy inside the snapshot. */
  function Copy(ghost p: Config, q: Config, n: nat): (r: Config)
    requires Framed(p, q) && n > 0
    ensures Framed(p, r)
  {
    AllocKeeps(q.s, n, true, true);
    KeptForward(p, q, Alloc(n, true, true));
    Next(q, Alloc(n, true, true))
  }

  /** cpool_restore: what is in use is as before the snapshot. */
  function Close(ghost p: Config, q: Config): (r: Config)
    requires Framed(p, q)
    ensures Good(r) && r.l == p.l && r.s.marks == p.s.marks
  {
    KeptIsUndone(p, q);
    Next(q, Restore)
  }

  /** One more region in use. */
  function Stored(p: Config, n: nat): (q: Config)
    requires Good(p) && n > 0
    ensures Good(q) && q.s.marks == p.s.marks && q.l.cuts == p.l.cuts
    ensures |q.l.live| == |p.l.live| + 1 && p.l.live <= q.l.live
    ensures var r := q.l.live[|p.l.live|]; !r.addr.Null? && r.size == n
  {
    AllocKeeps(p.s, n, true, true);
    Next(p, Alloc(n, true, true))
  }
}
