/** The arena allocator as the code keeps it: a chain of blocks with a current block and
    a tail, a chain of large blocks, and a fixed array of snapshots that point into both.
    `State` is the pool as a value; `Valid` ties it to the chains, and every operation is
    proved to change it as PoolSpec says. */
module CPool {
  import opened Bits
  import S = PoolSpec

  class Block {
    var next: Block?
    var full: bool
    var head: nat
    ghost const index: nat

    constructor (ghost i: nat)
      ensures next == null && !full && head == 0 && index == i
    {
      next, full, head, index := null, false, 0, i;
    }
  }

  class LargeBlock {
    var next: LargeBlock?
    ghost const index: nat
    ghost const id: nat

    constructor (ghost i: nat, ghost name: nat)
      ensures next == null && index == i && id == name
    {
      next, index, id := null, i, name;
    }
  }

  datatype Snapshot = Snapshot(head: nat, full: bool, current: Block?, last: Block?, largeCurrent: LargeBlock?)

  /** A result of palloc: a place in a block, or the data of a large block. */
  datatype Pointer = Nil | Place(block: Block, off: nat) | Whole(large: LargeBlock)

  ghost function AddrOf(p: Pointer): S.Addr {
    match p
    case Nil => S.Null
    case Place(b, off) => S.At(b.index, off)
    case Whole(lb) => S.Large(lb.id)
  }

  ghost function MarkOf(s: Snapshot): S.Mark {
    var last := if s.last == null then 0 else s.last.index;
    S.Mark(if s.current == null then last + 1 else s.current.index,
           last, s.head, s.full,
           if s.largeCurrent == null then 0 else s.largeCurrent.index + 1)
  }

  // ---------- chains ----------

  ghost predicate InChain(bs: seq<Block>, b: Block) {
    b.index < |bs| && bs[b.index] == b
  }

  ghost predicate Linked(bs: seq<Block>, i: nat)
    requires i < |bs|
    reads bs`next
  {
    bs[i].next == if i + 1 < |bs| then bs[i + 1] else null
  }

  ghost predicate Chain(bs: seq<Block>)
    reads bs`next
  {
    && (forall i | 0 <= i < |bs| :: bs[i].index == i)
    && (forall i | 0 <= i < |bs| :: Linked(bs, i))
  }

  /** The blocks hold what the value says. */
  ghost predicate Shows(bs: seq<Block>, view: seq<S.Block>)
    reads bs`head, bs`full
  {
    && |bs| == |view|
    && forall i | 0 <= i < |bs| :: bs[i].head == view[i].head && bs[i].full == view[i].full
  }

  ghost predicate InLarges(ls: seq<LargeBlock>, b: LargeBlock) {
    b.index < |ls| && ls[b.index] == b
  }

  ghost predicate LargeLinked(ls: seq<LargeBlock>, i: nat)
    requires i < |ls|
    reads ls`next
  {
    ls[i].next == if i + 1 < |ls| then ls[i + 1] else null
  }

  ghost predicate LargeChain(ls: seq<LargeBlock>, ids: seq<nat>)
    reads ls`next
  {
    && |ls| == |ids|
    && (forall i | 0 <= i < |ls| :: ls[i].index == i && ls[i].id == ids[i])
    && (forall i | 0 <= i < |ls| :: LargeLinked(ls, i))
  }

  ghost predicate SnapshotOk(bs: seq<Block>, ls: seq<LargeBlock>, s: Snapshot, m: S.Mark) {
    && s.last != null && InChain(bs, s.last)
    && (s.current != null ==> InChain(bs, s.current) && s.current.index <= s.last.index)
    && (s.largeCurrent != null ==> InLarges(ls, s.largeCurrent))
    && m == MarkOf(s)
  }

  class Pool {
    const blockSize: nat
    var root: Block
    var current: Block?
    var last: Block
    var largeRoot: LargeBlock?
    var largeLast: LargeBlock?
    const snapshots: array<Snapshot>
    var snapshotEnd: nat

    // The two chains, in order, what they and the snapshots hold as a value, and the
    // traffic with the system allocator.
    ghost var blocks: seq<Block>
    ghost var larges: seq<LargeBlock>
    ghost var view: seq<S.Block>
    ghost var cur: nat
    ghost var ids: seq<nat>
    ghost var marks: seq<S.Mark>
    ghost var born: nat
    ghost var taken: seq<S.Chunk>
    ghost var freed: seq<S.Chunk>

    /** The pool as a value. */
    ghost function State(): S.State
      reads this
    {
      S.State(blockSize, view, cur, ids, marks, born, taken, freed)
    }

    ghost predicate BlocksOk()
      reads this`root, this`current, this`last, this`blocks, this`view, this`cur, blocks`next, blocks`head, blocks`full
    {
      ChainOk() && Shows(blocks, view)
    }

    ghost predicate ChainOk()
      reads this`root, this`current, this`last, this`blocks, this`cur, blocks`next
    {
      && 0 < |blocks| && Chain(blocks)
      && root == blocks[0] && last == blocks[|blocks| - 1]
      && (current != null ==> InChain(blocks, current))
      && cur == (if current == null then |blocks| else current.index)
    }

    ghost predicate LargesOk()
      reads this`largeRoot, this`largeLast, this`larges, this`ids, larges`next
    {
      && LargeChain(larges, ids)
      && largeRoot == (if larges == [] then null else larges[0])
      && largeLast == (if larges == [] then null else larges[|larges| - 1])
    }

    ghost predicate SnapshotsOk()
      reads this`snapshotEnd, this`blocks, this`larges, this`marks, snapshots
    {
      && snapshots.Length == S.MAX_SAVE_DEPTH && snapshotEnd == |marks| <= S.MAX_SAVE_DEPTH
      && forall d | 0 <= d < snapshotEnd :: SnapshotOk(blocks, larges, snapshots[d], marks[d])
    }

    ghost predicate Valid()
      reads this, blocks, larges, snapshots
    {
      BlocksOk() && LargesOk() && SnapshotsOk()
    }

    /** What is new in a chain has been allocated since. */
    twostate predicate BlocksGrow()
      reads this`blocks
    {
      old(blocks) <= blocks && forall i | |old(blocks)| <= i < |blocks| :: fresh(blocks[i])
    }

    twostate predicate LargesGrow()
      reads this`larges
    {
      old(larges) <= larges && forall i | |old(larges)| <= i < |larges| :: fresh(larges[i])
    }

    constructor (size: nat)
      ensures Valid() && State() == S.Init(size)
      ensures fresh(blocks) && larges == [] && fresh(snapshots)
    {
      blockSize := size;
      var b := new Block(0);
      root, current, last := b, b, b;
      largeRoot, largeLast := null, null;
      snapshots := new Snapshot[S.MAX_SAVE_DEPTH](_ => Snapshot(0, false, null, null, null));
      snapshotEnd := 0;
      blocks, larges, born, taken, freed := [b], [], 0, [S.PoolRecord, S.SmallBlock(0)], [];
      view, cur, ids, marks := [S.EMPTY], 0, [], [];
    }

    /** cpool_init: obtains the record and a first block; when the block is refused, the
        record is returned. */
    static method Create(size: nat, recordOk: bool, blockOk: bool)
      returns (p: Pool?, ghost taken: seq<S.Chunk>, ghost freed: seq<S.Chunk>)
      ensures p == null <==> !recordOk || !blockOk
      ensures p == null ==> taken == freed == if recordOk then [S.PoolRecord] else []
      ensures p != null ==> fresh(p) && p.Valid() && p.State() == S.Init(size) && (taken, freed) == (p.taken, p.freed)
    {
      p, taken, freed := null, [], [];
      if recordOk {
        taken := [S.PoolRecord];
        if blockOk {
          p := new Pool(size);
          taken := p.taken;
        } else {
          freed := [S.PoolRecord];
        }
      }
    }

    /** Appends a block at the tail and makes it current. */
    method AppendBlock(ok: bool) returns (failed: bool)
      requires BlocksOk() && SnapshotsOk()
      modifies this`current, this`last, this`blocks, this`taken, this`view, this`cur, last`next
      ensures BlocksOk() && SnapshotsOk() && failed == !ok
      ensures State() == if ok then S.AppendBlock(old(State())) else old(State())
      ensures if ok then fresh(last) && current == last && blocks == old(blocks) + [last]
              else current == old(current) && blocks == old(blocks)
    {
      failed := !ok;
      if ok {
        Extend();
      }
    }

    method Extend()
      requires BlocksOk() && SnapshotsOk()
      modifies this`current, this`last, this`blocks, this`taken, this`view, this`cur, last`next
      ensures BlocksOk() && SnapshotsOk() && State() == S.AppendBlock(old(State()))
      ensures fresh(last) && current == last && blocks == old(blocks) + [last]
    {
      taken := taken + [S.SmallBlock(|blocks|)];
      var b := LinkBlock();
      Enter(b);
    }

    /** Makes a block current that has just been hung behind the others. */
    method Enter(b: Block)
      requires Chain(blocks) && |blocks| == |view| + 1 && root == blocks[0] && last == b == blocks[|view|]
      requires b.head == 0 && !b.full && SnapshotsOk()
      requires forall i | 0 <= i < |view| :: blocks[i].head == view[i].head && blocks[i].full == view[i].full
      modifies this`current, this`view, this`cur
      ensures BlocksOk() && SnapshotsOk() && current == b && cur == |old(view)| && view == old(view) + [S.EMPTY]
    {
      current, cur, view := b, |view|, view + [S.EMPTY];
    }

    /** Hangs a fresh block behind the tail. */
    method LinkBlock() returns (b: Block)
      requires 0 < |blocks| && Chain(blocks) && last == blocks[|blocks| - 1] && SnapshotsOk()
      modifies this`last, this`blocks, last`next
      ensures SnapshotsOk()
      ensures fresh(b) && b.head == 0 && !b.full
      ensures blocks == old(blocks) + [b] && last == b && Chain(blocks)
    {
      b := new Block(|blocks|);
      ghost var was := blocks;
      last.next := b;
      last := b;
      blocks := blocks + [b];
      forall i | 0 <= i < |blocks| ensures Linked(blocks, i) { assert i < |was| ==> old(Linked(was, i)); }
    }

    /** A block of its own, for a request that no block can hold. */
    method AllocLargeBlock(nodeOk: bool, dataOk: bool) returns (p: Pointer)
      requires LargesOk() && SnapshotsOk()
      modifies this`largeRoot, this`largeLast, this`larges, this`ids, this`born, this`taken, this`freed, larges`next
      ensures LargesOk() && SnapshotsOk()
      ensures (State(), AddrOf(p)) == S.AllocLarge(old(State()), nodeOk, dataOk) && LargesGrow()
    {
      p := Nil;
      if nodeOk && dataOk {
        p := AddLarge();
      } else if nodeOk {
        taken, freed, born := taken + [S.LargeNode(born)], freed + [S.LargeNode(born)], born + 1;
      }
    }

    method AddLarge() returns (p: Pointer)
      requires LargesOk() && SnapshotsOk()
      modifies this`largeRoot, this`largeLast, this`larges, this`ids, this`born, this`taken, larges`next
      ensures LargesOk() && SnapshotsOk() && LargesGrow()
      ensures (State(), AddrOf(p)) == S.AllocLarge(old(State()), true, true)
    {
      ghost var id := born;
      taken, born := taken + [S.LargeNode(born), S.LargeData(born)], born + 1;
      var lb := LinkLarge(id);
      p := Whole(lb);
    }

    method LinkLarge(ghost id: nat) returns (lb: LargeBlock)
      requires LargesOk() && SnapshotsOk()
      modifies this`largeRoot, this`largeLast, this`larges, this`ids, larges`next
      ensures LargesOk() && SnapshotsOk() && fresh(lb) && lb.id == id
      ensures larges == old(larges) + [lb] && ids == old(ids) + [id]
    {
      lb := new LargeBlock(|larges|, id);
      ghost var was := larges;
      if largeRoot == null {
        largeRoot := lb;
      } else {
        largeLast.next := lb;
      }
      largeLast := lb;
      larges, ids := larges + [lb], ids + [id];
      forall i | 0 <= i < |larges| ensures LargeLinked(larges, i) { assert i < |was| ==> old(LargeLinked(was, i)); }
    }

    method Palloc(size: nat, ok1: bool, ok2: bool) returns (p: Pointer)
      requires Valid() && size > 0
      modifies this, blocks, larges
      ensures Valid() && (State(), AddrOf(p)) == S.Palloc(old(State()), size, ok1, ok2)
      ensures BlocksGrow() && LargesGrow()
    {
      if size > blockSize {
        p := PallocLarge(size, ok1, ok2);
      } else {
        p := PallocSmall(size, ok1, ok2);
      }
    }

    method PallocLarge(size: nat, ok1: bool, ok2: bool) returns (p: Pointer)
      requires Valid() && size > blockSize
      modifies this, larges
      ensures Valid() && (State(), AddrOf(p)) == S.Palloc(old(State()), size, ok1, ok2)
      ensures blocks == old(blocks) && LargesGrow()
    {
      p := AllocLargeBlock(ok1, ok2);
    }

    method PallocSmall(size: nat, ok1: bool, ok2: bool) returns (p: Pointer)
      requires Valid() && size <= blockSize
      modifies this, blocks
      ensures Valid() && (State(), AddrOf(p)) == S.Palloc(old(State()), size, ok1, ok2)
      ensures BlocksGrow() && larges == old(larges)
    {
      p := AllocSmall(size, ok1);
    }

    method AllocSmall(size: nat, ok: bool) returns (p: Pointer)
      requires BlocksOk() && SnapshotsOk() && size <= blockSize
      modifies this`current, this`last, this`blocks, this`taken, this`view, this`cur, blocks
      ensures BlocksOk() && SnapshotsOk() && BlocksGrow()
      ensures (State(), AddrOf(p)) == S.Palloc(old(State()), size, ok, ok)
    {
      var failed := FindRoom(size, ok);
      if failed { return Nil; }
      p := TakeFromCurrent(size);
    }

    /** Makes a block current that has room for a small request. */
    method FindRoom(size: nat, ok: bool) returns (failed: bool)
      requires BlocksOk() && SnapshotsOk()
      modifies this`current, this`last, this`blocks, this`taken, this`view, this`cur, last`next
      ensures BlocksOk() && SnapshotsOk() && BlocksGrow() && (failed ==> State() == old(State()))
      ensures failed <==> S.Target(old(State()), size) == |old(view)| && !ok
      ensures !failed ==> && current != null && (current in old(blocks) || fresh(current))
                          && State() == if S.Target(old(State()), size) < |old(view)|
                                        then old(State()).(cur := S.Target(old(State()), size))
                                        else S.AppendBlock(old(State()))
    {
      failed := false;
      if current == null || current.head + size > blockSize {
        if current != null {
          assert Linked(blocks, current.index);
        }
        if current != null && current.next != null {
          current := current.next;
          cur := cur + 1;
        } else {
          failed := AppendBlock(ok);
        }
      }
    }

    /** Hands out the next bytes of the current block. */
    method TakeFromCurrent(size: nat) returns (p: Pointer)
      requires BlocksOk() && current != null
      modifies this`current, this`cur, this`view, current`head, current`full
      ensures BlocksOk() && (State(), AddrOf(p)) == S.Bump(old(State()), size)
    {
      p := Place(current, current.head);
      SetHead(current.head + size, current.head + size == blockSize);
      if current.head == blockSize {
        Leave();
      }
    }

    /** Room for num items of size bytes; a product that does not fit a word is refused. */
    method Pcalloc(num: nat, size: nat, ok1: bool, ok2: bool) returns (p: Pointer)
      requires Valid() && 0 < num < WORD && 0 < size < WORD
      modifies this, blocks, larges
      ensures Valid() && BlocksGrow() && LargesGrow()
      ensures if num * size < WORD then (State(), AddrOf(p)) == S.Palloc(old(State()), num * size, ok1, ok2)
              else p == Nil && State() == old(State())
    {
      QuotientTest(num, size);
      var total := num * size;
      if size > (WORD - 1) / num { return Nil; }
      p := Palloc(total, ok1, ok2);
    }

    method Save()
      requires Valid() && snapshotEnd < S.MAX_SAVE_DEPTH
      modifies this`snapshotEnd, this`marks, snapshots
      ensures Valid() && State() == S.SaveMark(old(State()))
    {
      var snap := if current != null then current else last;
      Push(Snapshot(snap.head, snap.full, current, last, largeLast));
    }

    method Push(s: Snapshot)
      requires Valid() && snapshotEnd < S.MAX_SAVE_DEPTH && SnapshotOk(blocks, larges, s, MarkOf(s))
      modifies this`snapshotEnd, this`marks, snapshots
      ensures Valid() && marks == old(marks) + [MarkOf(s)]
    {
      snapshots[snapshotEnd] := s;
      marks := marks + [MarkOf(s)];
      snapshotEnd := snapshotEnd + 1;
    }

    method Align(align: nat, ok1: bool, ok2: bool) returns (failed: bool)
      requires Valid() && S.Inv(State()) && 0 < align < WORD && And(align, align - 1) == 0
      modifies this`current, this`last, this`blocks, this`taken, this`view, this`cur, blocks
      ensures Valid() && (State(), !failed) == S.AlignTo(old(State()), align, ok1, ok2) && BlocksGrow()
    {
      failed := AlignBlocks(align, ok1, ok2);
    }

    method AlignBlocks(align: nat, ok1: bool, ok2: bool) returns (failed: bool)
      requires BlocksOk() && SnapshotsOk() && (current != null ==> current.head <= HALF)
      requires 0 < align < WORD && And(align, align - 1) == 0
      modifies this`current, this`last, this`blocks, this`taken, this`view, this`cur, blocks
      ensures BlocksOk() && SnapshotsOk() && BlocksGrow()
      ensures (State(), !failed) == S.AlignTo(old(State()), align, ok1, ok2)
    {
      if current == null {
        failed := AppendBlock(ok1);
        if failed { return; }
      }
      failed := AlignCurrent(align, ok2);
    }

    method AlignCurrent(align: nat, ok: bool) returns (failed: bool)
      requires BlocksOk() && SnapshotsOk() && current != null && current.head <= HALF
      requires 0 < align < WORD && And(align, align - 1) == 0
      modifies this`current, this`last, this`blocks, this`taken, this`view, this`cur, current, last`next
      ensures BlocksOk() && SnapshotsOk() && BlocksGrow()
      ensures (State(), !failed) == S.PlaceHead(old(State()), AlignUp(old(current.head), align), ok)
    {
      var head := AlignedHead(current.head, align);
      failed := MoveHead(head, ok);
    }

    /** The head rounded up by the code's mask, in 64-bit arithmetic. */
    static method AlignedHead(head: nat, align: nat) returns (h: nat)
      requires head <= HALF && 0 < align < WORD && And(align, align - 1) == 0
      ensures h == AlignUp(head, align)
    {
      ghost var exp := ExponentOf(align);
      AlignMask(head, align, exp);
      h := And((head + align - 1) % WORD, Complement(align - 1));
    }

    method MoveHead(head: nat, ok: bool) returns (failed: bool)
      requires BlocksOk() && SnapshotsOk() && current != null
      modifies this`current, this`last, this`blocks, this`taken, this`view, this`cur, current, last`next
      ensures BlocksOk() && SnapshotsOk() && BlocksGrow() && (State(), !failed) == S.PlaceHead(old(State()), head, ok)
    {
      SetHead(head, head >= blockSize);
      failed := false;
      if current.head >= blockSize {
        failed := AppendBlock(ok);
      }
    }

    /** Moves the head of the current block, and marks it full if it is. */
    method SetHead(head: nat, filled: bool)
      requires BlocksOk() && current != null
      modifies this`view, current`head, current`full
      ensures BlocksOk() && current.head == head
      ensures view == old(view)[cur := S.Block(head, filled || old(view)[cur].full)]
    {
      view := view[cur := S.Block(head, filled || current.full)];
      current.head := head;
      if filled {
        current.full := true;
      }
    }

    /** Goes on to the next block, or to none. */
    method Leave()
      requires BlocksOk() && current != null
      modifies this`current, this`cur
      ensures BlocksOk() && cur == old(cur) + 1
    {
      assert Linked(blocks, current.index);
      current, cur := current.next, cur + 1;
    }

    /** Empties block b and those behind it, except for what a snapshot remembers of b. */
    method RewindFrom(first: Block, head: nat, full: bool)
      requires Chain(blocks) && InChain(blocks, first) && Shows(blocks, view)
      modifies this`view, blocks`head, blocks`full
      ensures Shows(blocks, view) && view == S.Rewound(old(view), first.index, head, full)
    {
      first.head, first.full := head, full;
      assert Linked(blocks, first.index);
      EmptyFrom(first.next, first.index + 1);
      S.RewoundBelow(view, first.index, head, full);
      view := S.Rewound(view, first.index, head, full);
    }

    /** Empties the blocks from first on. */
    method EmptyFrom(first: Block?, ghost from: nat)
      requires Chain(blocks) && from <= |blocks| && first == if from < |blocks| then blocks[from] else null
      modifies blocks`head, blocks`full
      ensures forall i | 0 <= i < from :: blocks[i].head == old(blocks[i].head) && blocks[i].full == old(blocks[i].full)
      ensures forall i | from <= i < |blocks| :: blocks[i].head == 0 && !blocks[i].full
    {
      var b := first;
      ghost var k := from;
      while b != null
        invariant from <= k <= |blocks| && b == if k < |blocks| then blocks[k] else null
        invariant forall i | 0 <= i < from ::
          blocks[i].head == old(blocks[i].head) && blocks[i].full == old(blocks[i].full)
        invariant forall i | from <= i < k :: blocks[i].head == 0 && !blocks[i].full
        decreases |blocks| - k
      {
        assert Linked(blocks, k);
        b.head, b.full := 0, false;
        b, k := b.next, k + 1;
      }
    }

    /** Returns a large block and those behind it to the system. */
    method ReleaseFrom(first: LargeBlock?, ghost k: nat)
      requires LargeChain(larges, ids) && k <= |larges|
      requires first == if k < |larges| then larges[k] else null
      modifies this`freed, larges`next
      ensures freed == old(freed) + S.Release(ids[k..])
      ensures forall i | 0 <= i < k :: larges[i].next == old(larges[i].next)
    {
      var lb := first;
      ghost var i := k;
      assert ids[k..k] == [];
      while lb != null
        invariant k <= i <= |larges| && lb == if i < |larges| then larges[i] else null
        invariant forall j | i <= j < |larges| :: larges[j].next == old(larges[j].next)
        invariant forall j | 0 <= j < k :: larges[j].next == old(larges[j].next)
        invariant freed == old(freed) + S.Release(ids[k..i])
        decreases |larges| - i
      {
        assert old(LargeLinked(larges, i));
        var next := lb.next;
        freed := freed + [S.LargeData(lb.id), S.LargeNode(lb.id)];
        S.ReleaseSnoc(ids, k, i);
        lb.next := null;
        lb, i := next, i + 1;
      }
      assert ids[k..i] == ids[k..];
    }

    /** Follows the chain to its tail. */
    method Tail(first: Block) returns (b: Block)
      requires Chain(blocks) && InChain(blocks, first)
      ensures b == blocks[|blocks| - 1]
    {
      b := first;
      while b.next != null
        invariant InChain(blocks, b)
        decreases |blocks| - b.index
      {
        assert Linked(blocks, b.index);
        b := b.next;
      }
      assert Linked(blocks, b.index);
    }

    method Restore()
      requires Valid() && S.Inv(State()) && snapshotEnd > 0
      modifies this, blocks, larges
      ensures Valid() && S.Inv(State()) && State() == S.RestoreMark(old(State()))
      ensures blocks == old(blocks) && larges <= old(larges)
    {
      S.RestoreKeepsInv(State());
      ghost var m := RestoreTop();
    }

    /** What cpool_restore does, for snapshots that are in order along the large chain. */
    method RestoreTop() returns (ghost m: S.Mark)
      requires Valid() && snapshotEnd > 0
      requires marks[snapshotEnd - 1].Base() < |view| && marks[snapshotEnd - 1].large <= |ids|
      requires forall d | 0 <= d < snapshotEnd :: marks[d].large <= marks[snapshotEnd - 1].large
      modifies this`snapshotEnd, this`marks, this`current, this`last, this`view, this`cur, blocks`head, blocks`full
      modifies this`larges, this`largeLast, this`largeRoot, this`freed, this`ids, larges`next
      ensures Valid() && marks == old(marks)[..|old(marks)| - 1] && m == old(marks)[|old(marks)| - 1]
      ensures cur == m.Base() && view == S.Rewound(old(view), m.Base(), m.head, m.full)
      ensures larges == old(larges)[..m.large]
      ensures ids == old(ids)[..m.large] && freed == old(freed) + S.Release(old(ids)[m.large..])
    {
      var snap, b;
      snap, b, m := PopSnapshot();
      RestoreTo(b, snap.last, snap.head, snap.full, snap.largeCurrent, m);
    }

    /** The chains as they were, and the snapshots before that. */
    method RestoreTo(b: Block, from: Block, head: nat, full: bool, lb: LargeBlock?, ghost m: S.Mark)
      requires BlocksOk() && InChain(blocks, b) && InChain(blocks, from)
      requires LargesOk() && SnapshotsBelow(m.large) && m.large == if lb == null then 0 else lb.index + 1
      requires lb != null ==> InLarges(larges, lb)
      requires m.Base() == b.index && m.head == head && m.full == full
      modifies this`current, this`last, this`view, this`cur, blocks`head, blocks`full
      modifies this`larges, this`largeLast, this`largeRoot, this`freed, this`ids, larges`next
      ensures Valid() && larges == old(larges)[..m.large]
      ensures cur == m.Base() && view == S.Rewound(old(view), m.Base(), m.head, m.full)
      ensures ids == old(ids)[..m.large] && freed == old(freed) + S.Release(old(ids)[m.large..])
    {
      RestoreChains(b, from, head, full, lb, m.large);
    }

    method RestoreChains(b: Block, from: Block, head: nat, full: bool, lb: LargeBlock?, ghost k: nat)
      requires BlocksOk() && InChain(blocks, b) && InChain(blocks, from)
      requires LargesOk() && k <= |larges| && k == if lb == null then 0 else lb.index + 1
      requires lb != null ==> InLarges(larges, lb)
      modifies this`current, this`last, this`view, this`cur, blocks`head, blocks`full
      modifies this`larges, this`largeLast, this`largeRoot, this`freed, this`ids, larges`next
      ensures BlocksOk() && LargesOk() && larges == old(larges)[..k]
      ensures cur == b.index && view == S.Rewound(old(view), b.index, head, full)
      ensures ids == old(ids)[..k] && freed == old(freed) + S.Release(old(ids)[k..])
    {
      DropLarges(lb, k);
      RestoreBlocks(b, from, head, full);
    }

    method PopSnapshot() returns (snap: Snapshot, b: Block, ghost m: S.Mark)
      requires SnapshotsOk() && snapshotEnd > 0
      requires forall d | 0 <= d < snapshotEnd :: marks[d].large <= marks[snapshotEnd - 1].large
      modifies this`snapshotEnd, this`marks
      ensures snapshotEnd == old(snapshotEnd) - 1 && marks == old(marks)[..snapshotEnd] && m == old(marks)[snapshotEnd]
      ensures snap.last != null && InChain(blocks, snap.last) && InChain(blocks, b)
      ensures m.Base() == b.index && m.head == snap.head && m.full == snap.full
      ensures m.large == (if snap.largeCurrent == null then 0 else snap.largeCurrent.index + 1) && m.large <= |larges|
      ensures snap.largeCurrent != null ==> InLarges(larges, snap.largeCurrent)
      ensures SnapshotsBelow(m.large)
    {
      snapshotEnd := snapshotEnd - 1;
      snap, m := snapshots[snapshotEnd], marks[snapshotEnd];
      assert SnapshotOk(blocks, larges, snap, m);
      b := if snap.current != null then snap.current else snap.last;
      assert b.index == m.Base();
      marks := marks[..snapshotEnd];
    }

    /** The snapshots also hold for the first k large blocks alone. */
    ghost predicate SnapshotsBelow(k: nat)
      reads this`snapshotEnd, this`blocks, this`larges, this`marks, snapshots
    {
      && snapshots.Length == S.MAX_SAVE_DEPTH && snapshotEnd == |marks| <= S.MAX_SAVE_DEPTH && k <= |larges|
      && forall d | 0 <= d < snapshotEnd :: SnapshotOk(blocks, larges[..k], snapshots[d], marks[d])
    }

    /** Rewinds the block chain to block b and finds its tail again. */
    method RestoreBlocks(b: Block, from: Block, head: nat, full: bool)
      requires BlocksOk() && LargesOk() && InChain(blocks, b) && InChain(blocks, from)
      modifies this`current, this`last, this`view, this`cur, blocks`head, blocks`full
      ensures LargesOk() && BlocksOk() && cur == b.index && view == S.Rewound(old(view), b.index, head, full)
    {
      RewindFrom(b, head, full);
      Settle(b, from);
    }

    /** Makes b current and finds the tail again. */
    method Settle(b: Block, from: Block)
      requires ChainOk() && InChain(blocks, b) && InChain(blocks, from)
      modifies this`current, this`last, this`cur
      ensures ChainOk() && cur == b.index
    {
      current, cur := b, b.index;
      last := Tail(from);
    }

    /** Releases the large blocks behind lb, or all of them, and makes lb the tail. */
    method DropLarges(lb: LargeBlock?, ghost k: nat)
      requires LargesOk() && k <= |larges| && k == if lb == null then 0 else lb.index + 1
      requires lb != null ==> InLarges(larges, lb)
      modifies this`larges, this`largeLast, this`largeRoot, this`freed, this`ids, larges`next
      ensures LargesOk() && larges == old(larges)[..k]
      ensures ids == old(ids)[..k] && freed == old(freed) + S.Release(old(ids)[k..])
    {
      if lb != null { assert LargeLinked(larges, lb.index); }
      var first := if lb == null then largeRoot else lb.next;
      ReleaseFrom(first, k);
      forall i | 0 <= i < k ensures LargeLinked(larges, i) { assert old(LargeLinked(larges, i)); }
      CutBehind(lb, k);
    }

    /** Makes lb the tail of the large chain, of which only the first k blocks are left. */
    method CutBehind(lb: LargeBlock?, ghost k: nat)
      requires k <= |larges| == |ids| && lb == (if k == 0 then null else larges[k - 1])
      requires forall i | 0 <= i < k :: larges[i].index == i && larges[i].id == ids[i] && LargeLinked(larges, i)
      requires k > 0 ==> largeRoot == larges[0]
      modifies this`larges, this`largeLast, this`largeRoot, this`ids, larges`next
      ensures LargesOk() && larges == old(larges)[..k] && ids == old(ids)[..k]
    {
      largeLast := lb;
      if largeLast != null {
        largeLast.next := null;
      } else {
        largeRoot := null;
      }
      ghost var was := larges;
      larges, ids := larges[..k], ids[..k];
      forall i | 0 <= i < |larges| ensures LargeLinked(larges, i) { assert old(LargeLinked(was, i)); }
    }

    method Reset()
      requires Valid()
      modifies this, blocks, larges
      ensures Valid() && State() == S.ResetAll(old(State())) && blocks == old(blocks) && larges == []
    {
      ResetChains();
      ClearSnapshots();
    }

    method ClearSnapshots()
      requires BlocksOk() && LargesOk() && snapshots.Length == S.MAX_SAVE_DEPTH
      modifies this`snapshotEnd, this`marks
      ensures Valid() && marks == []
    {
      snapshotEnd, marks := 0, [];
    }

    method ResetChains()
      requires BlocksOk() && LargesOk()
      modifies this`current, this`last, this`view, this`cur, blocks`head, blocks`full
      modifies this`larges, this`largeLast, this`largeRoot, this`freed, this`ids, larges`next
      ensures BlocksOk() && LargesOk() && State() == S.ResetAll(old(State())).(marks := marks)
    {
      S.RewoundAll(view);
      assert ids[0..] == ids;
      RestoreChains(root, root, 0, false, null, 0);
    }

    /** Returns every chunk to the system. */
    method Uninit()
      requires Valid()
      modifies this, blocks, larges
      ensures freed == S.Uninit(old(State())) && taken == old(taken)
    {
      var b: Block? := root;
      ghost var k := 0;
      while b != null
        invariant k <= |blocks| && b == if k < |blocks| then blocks[k] else null
        invariant freed == old(freed) + S.SmallBlocks(k)
        decreases |blocks| - k
        modifies this`freed
      {
        assert Linked(blocks, k);
        freed := freed + [S.SmallBlock(k)];
        b, k := b.next, k + 1;
      }
      ReleaseFrom(largeRoot, 0);
      assert ids[0..] == ids;
      snapshotEnd := 0;
      freed := freed + [S.PoolRecord];
    }
  }

  lemma AlignMask(head: nat, align: nat, exp: nat)
    requires head <= HALF && exp <= 63 && align == Pow2(exp)
    ensures align - 1 < WORD && And((head + align - 1) % WORD, Complement(align - 1)) == AlignUp(head, align)
  {
    SumFits(head, exp);
    MaskIsAlignUp(head, exp);
    SmallMod(head + align - 1, WORD);
  }

  lemma SumFits(head: nat, exp: nat)
    requires head <= HALF && exp <= 63
    ensures head + Pow2(exp) - 1 < WORD
  {
    WordIsPow2();
    Pow2Monotone(exp, 63);
  }

  lemma SmallMod(x: nat, m: nat)
    requires x < m
    ensures x % m == x
  {
  }

  lemma QuotientTest(num: nat, size: nat)
    requires num > 0
    ensures size > (WORD - 1) / num <==> num * size >= WORD
  {
    var q, r := (WORD - 1) / num, (WORD - 1) % num;
    assert WORD - 1 == q * num + r;
    assert (q + 1) * num == q * num + num;
    if size > q {
      MulMono(q + 1, size, num);
    } else {
      MulMono(size, q, num);
    }
  }
}
