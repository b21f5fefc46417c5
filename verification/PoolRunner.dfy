/** Runs of the linked pool. Any list of operations, carried out on the chains, leaves them
    in the state the specification's run ends in, and the pointers the caller is left with
    are the regions of its ledger: what is proved of runs holds of the linked pool. */
module PoolRunner {
  import opened Bits
  import opened CPool
  import S = PoolSpec
  import R = PoolRegions
  import C = PoolConservation

  /** What the assertions of the code test before an operation. */
  method Allowed(p: Pool, op: S.Op) returns (ok: bool)
    requires p.Valid()
    ensures ok == S.Enabled(p.State(), op)
  {
    match op {
      case Alloc(n, _, _) => ok := n > 0;
      case Align(exp, _, _) => ok := exp <= 63;
      case Save => ok := p.snapshotEnd < S.MAX_SAVE_DEPTH;
      case Restore => ok := p.snapshotEnd > 0;
      case Reset => ok := true;
    }
  }

  /** What has joined the chains is new. */
  twostate predicate OnlyNew(p: Pool)
    reads p
  {
    && (forall i | 0 <= i < |p.blocks| ::
          fresh(p.blocks[i]) || (i < |old(p.blocks)| && p.blocks[i] == old(p.blocks)[i]))
    && (forall i | 0 <= i < |p.larges| ::
          fresh(p.larges[i]) || (i < |old(p.larges)| && p.larges[i] == old(p.larges)[i]))
  }

  method AlignTo(p: Pool, exp: nat, ok1: bool, ok2: bool)
    requires p.Valid() && S.Inv(p.State()) && exp <= 63
    modifies p, p.blocks
    ensures p.Valid() && p.State() == S.AlignTo(old(p.State()), Pow2(exp), ok1, ok2).0
    ensures p.BlocksGrow() && p.larges == old(p.larges)
  {
    PowerFits(exp);
    var failed := p.Align(Pow2(exp), ok1, ok2);
  }

  /** An operation that hands out or aligns. */
  method Forward(p: Pool, op: S.Op) returns (ptr: Pointer)
    requires p.Valid() && S.Inv(p.State()) && S.Enabled(p.State(), op) && (op.Alloc? || op.Align?)
    modifies p, p.blocks, p.larges
    ensures p.Valid() && (p.State(), AddrOf(ptr)) == S.Step(old(p.State()), op) && p.BlocksGrow() && p.LargesGrow()
  {
    ptr := Nil;
    if op.Alloc? {
      ptr := p.Palloc(op.n, op.ok1, op.ok2);
    } else {
      AlignTo(p, op.exp, op.ok1, op.ok2);
    }
  }

  /** An operation on the snapshots. */
  method Backward(p: Pool, op: S.Op)
    requires p.Valid() && S.Inv(p.State()) && S.Enabled(p.State(), op) && !op.Alloc? && !op.Align?
    modifies p, p.blocks, p.larges, p.snapshots
    ensures p.Valid() && (p.State(), S.Null) == S.Step(old(p.State()), op) && OnlyNew(p)
  {
    if op.Save? {
      p.Save();
    } else if op.Restore? {
      p.Restore();
    } else {
      p.Reset();
    }
  }

  /** A pointer handed out and how many bytes it was asked for. */
  datatype Grant = Grant(ptr: Pointer, size: nat)

  /** A caller's own record: the pointers it still has, and how many it had at each save. */
  datatype Book = Book(live: seq<Grant>, cuts: seq<nat>)

  const BLANK := Book([], [])

  function Note(b: Book, op: S.Op, ptr: Pointer): Book {
    match op
    case Alloc(n, _, _) => if ptr.Nil? then b else b.(live := b.live + [Grant(ptr, n)])
    case Align(_, _, _) => b
    case Save => b.(cuts := b.cuts + [|b.live|])
    case Restore =>
      if |b.cuts| == 0 || b.cuts[|b.cuts| - 1] > |b.live| then b
      else Book(b.live[..b.cuts[|b.cuts| - 1]], b.cuts[..|b.cuts| - 1])
    case Reset => BLANK
  }

  ghost function RegionOf(g: Grant): R.Region {
    R.Region(AddrOf(g.ptr), g.size)
  }

  /** The ledger of the specification, read off the pointers. */
  ghost function LedgerOf(b: Book): (l: R.Ledger)
    ensures |l.live| == |b.live| && forall i | 0 <= i < |b.live| :: l.live[i] == RegionOf(b.live[i])
  {
    R.Ledger(seq(|b.live|, i requires 0 <= i < |b.live| => RegionOf(b.live[i])), b.cuts)
  }

  lemma NoteRecords(b: Book, op: S.Op, ptr: Pointer)
    ensures LedgerOf(Note(b, op, ptr)) == R.Record(LedgerOf(b), op, AddrOf(ptr))
  {
  }

  /** One operation on the chains, and the pointers the caller is left with. */
  method Advance(p: Pool, op: S.Op, b: Book) returns (ok: bool, b': Book)
    requires p.Valid() && R.Good(R.Config(p.State(), LedgerOf(b)))
    modifies p, p.blocks, p.larges, p.snapshots
    ensures p.Valid() && OnlyNew(p) && ok == S.Enabled(old(p.State()), op)
    ensures ok ==> R.Config(p.State(), LedgerOf(b')) == R.Next(R.Config(old(p.State()), LedgerOf(b)), op)
  {
    ok := Allowed(p, op);
    b' := b;
    if ok {
      var ptr := Nil;
      if op.Alloc? || op.Align? {
        ptr := Forward(p, op);
      } else {
        Backward(p, op);
      }
      b' := Note(b, op, ptr);
      NoteRecords(b, op, ptr);
    }
  }

  lemma PowerFits(exp: nat)
    requires exp <= 63
    ensures Pow2(exp) < WORD && And(Pow2(exp), Pow2(exp) - 1) == 0
  {
    WordIsPow2();
    Pow2Monotone(exp, 63);
    PowerOfTwoTest(Pow2(exp));
  }

  /** A new pool and any operations on it: the run stops at the first failing assertion,
      exactly where the specification's run aborts, or ends in the same state, and then the
      pointers the caller has are the regions in the specification's ledger. */
  method Run(size: nat, ops: seq<S.Op>) returns (p: Pool, aborted: bool, b: Book)
    requires size < HALF
    ensures p.Valid() && fresh(p) && fresh(p.blocks) && fresh(p.larges)
    ensures R.Exec(R.Start(size), ops) == if aborted then R.Aborted else R.Running(R.Config(p.State(), LedgerOf(b)))
  {
    p := new Pool(size);
    b, aborted := BLANK, false;
    ghost var done := R.Exec(R.Start(size), ops);
    assert ops[0..] == ops;
    for i := 0 to |ops|
      invariant p.Valid() && fresh(p) && fresh(p.snapshots)
      invariant fresh(p.blocks) && fresh(p.larges)
      invariant R.Good(R.Config(p.State(), LedgerOf(b))) && R.Exec(R.Config(p.State(), LedgerOf(b)), ops[i..]) == done
    {
      ExecFrom(R.Config(p.State(), LedgerOf(b)), ops, i);
      var ok;
      ok, b := Advance(p, ops[i], b);
      if !ok {
        aborted := true;
        break;
      }
    }
  }

  lemma ExecFrom(c: R.Config, ops: seq<S.Op>, i: nat)
    requires R.Good(c) && i < |ops|
    ensures R.Exec(c, ops[i..])
         == if S.Enabled(c.s, ops[i]) then R.Exec(R.Next(c, ops[i]), ops[i + 1..]) else R.Aborted
  {
    assert ops[i..][0] == ops[i] && ops[i..][1..] == ops[i + 1..];
  }

  /** The pointers a caller is left with lie inside the pool and do not overlap. */
  lemma PointersSound(size: nat, ops: seq<S.Op>, s: S.State, b: Book)
    requires size < HALF && R.Exec(R.Start(size), ops) == R.Running(R.Config(s, LedgerOf(b)))
    ensures forall i | 0 <= i < |b.live| :: R.InBounds(s, RegionOf(b.live[i]))
    ensures forall i, j | 0 <= i < j < |b.live| :: R.Disjoint(RegionOf(b.live[i]), RegionOf(b.live[j]))
  {
    R.RunIsSound(size, ops);
    var l := LedgerOf(b);
    assert forall i | 0 <= i < |b.live| :: R.InBounds(s, l.live[i]);
    assert forall i, j | 0 <= i < j < |b.live| :: R.Disjoint(l.live[i], l.live[j]);
  }

  /** A run and the teardown: what the pool obtained from the system has been returned to it,
      every chunk exactly once, and nothing else has. */
  method Lifetime(size: nat, ops: seq<S.Op>) returns (p: Pool, aborted: bool)
    requires size < HALF
    ensures aborted == R.Exec(R.Start(size), ops).Aborted?
    ensures !aborted ==> forall c: S.Chunk :: multiset(p.freed)[c] == if c in p.taken then 1 else 0
  {
    var b;
    p, aborted, b := Run(size, ops);
    if !aborted {
      forall c: S.Chunk
        ensures multiset(S.Uninit(p.State()))[c] == if c in p.taken then 1 else 0
      {
        C.FreedExactlyOnce(size, ops, c);
      }
      p.Uninit();
    }
  }
}
