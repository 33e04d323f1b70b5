/** `shared_ptr` and `weak_ptr` handles over their count blocks, with whole operations atomic.

    The heap holds every count block and every handle by name, so that handles alias blocks as the
    pointers of the original do.  The reference meaning is a table of handles alone, without counters:
    `Meaning` below.  The heap keeps its counters in step with that table. */
module SharedPointers {

  type Name = nat
  type Pointer = nat   // a raw pointer; zero is null
  type BlockId = nat   // the address of a count block; zero is null

  datatype Handle = Handle(px: Pointer, pn: BlockId)

  /** A count block.  `managed`, `deletes` and `frees` record which object it counts and how often that
      object and the block itself were deleted; a freed block keeps its record. */
  datatype Block = Block(use: int, weak: int, spin: int, managed: Pointer, deletes: nat, frees: nat)

  type Handles = map<Name, Handle>

  const Null: Handle := Handle(0, 0)

  type Blocks = map<BlockId, Block>

  /** The effect of the operations of the count block. */
  function Acquired(k: Block): Block { k.(use := k.use + 1, weak := k.weak + 1) }
  function Released(k: Block): Block {
    k.(use := k.use - 1, weak := k.weak - 1,
       deletes := k.deletes + (if k.use == 1 then 1 else 0),
       frees := k.frees + (if k.use == 1 && k.weak == 1 then 1 else 0))
  }
  function WeakAcquired(k: Block): Block { k.(weak := k.weak + 1) }
  function WeakReleased(k: Block): Block { k.(weak := k.weak - 1, frees := k.frees + (if k.weak == 1 then 1 else 0)) }

  /** Apply `f` to the block at `b`, unless `b` is null. */
  function On(blocks: Blocks, b: BlockId, f: Block -> Block): Blocks
    requires b != 0 ==> b in blocks
  {
    if b == 0 then blocks else blocks[b := f(blocks[b])]
  }

  ghost function Holders(m: Handles, b: BlockId): set<Name> { set n | n in m && m[n].pn == b }

  /** Some handle of `m` holds the block. */
  predicate Owned(m: Handles, b: BlockId) { b != 0 && exists n :: n in m && m[n].pn == b }

  /** The counters are the numbers of handles; the object dies with the last owner, the block with the
      last handle. */
  ghost predicate Counted(k: Block, owners: nat, weaks: nat) {
    && k.managed != 0 && k.spin == 0
    && k.use == owners
    && k.weak == owners + weaks
    && k.deletes == (if owners == 0 then 1 else 0)
    && k.frees == (if owners + weaks == 0 then 1 else 0)
  }

  ghost predicate HandleOk(x: Handle, blocks: Blocks) {
    && (x.px == 0 <==> x.pn == 0)
    && (x.pn != 0 ==> x.pn in blocks && x.px == blocks[x.pn].managed)
  }

  /** Every handle is null or points to a block and its object, and every block counts its handles. */
  ghost predicate Sound(blocks: Blocks, shared: Handles, weak: Handles) {
    && 0 !in blocks
    && (forall n :: n in shared ==> HandleOk(shared[n], blocks))
    && (forall n :: n in weak ==> HandleOk(weak[n], blocks))
    && (forall b :: b in blocks ==> Counted(blocks[b], |Holders(shared, b)|, |Holders(weak, b)|))
  }

  lemma HoldersSet(m: Handles, n: Name, x: Handle, b: BlockId)
    ensures |Holders(m[n := x], b)| ==
            |Holders(m, b)| - (if n in m && m[n].pn == b then 1 else 0) + (if x.pn == b then 1 else 0)
  {
    var before, after := Holders(m, b), Holders(m[n := x], b);
    assert before - {n} == after - {n};
    assert |before| == |before - {n}| + (if n in before then 1 else 0);
    assert |after| == |after - {n}| + (if n in after then 1 else 0);
  }

  lemma HoldersRemove(m: Handles, n: Name, b: BlockId)
    requires n in m
    ensures |Holders(m - {n}, b)| == |Holders(m, b)| - (if m[n].pn == b then 1 else 0)
  {
    var before, after := Holders(m, b), Holders(m - {n}, b);
    assert before - {n} == after;
    assert |before| == |before - {n}| + (if n in before then 1 else 0);
  }

  lemma HolderCounts(m: Handles, n: Name)
    requires n in m
    ensures |Holders(m, m[n].pn)| > 0
  {
    assert n in Holders(m, m[n].pn);
  }

  /** The block a name holds; zero when it holds none. */
  function BlockAt(m: Handles, n: Name): BlockId { if n in m then m[n].pn else 0 }

  /** The same blocks, counting the same objects. */
  ghost predicate SameObjects(blocks: Blocks, blocks': Blocks) {
    blocks'.Keys == blocks.Keys && forall b :: b in blocks ==> blocks'[b].managed == blocks[b].managed
  }

  /** Handles stay good while blocks keep their objects. */
  lemma SameHandles(blocks: Blocks, blocks': Blocks, m: Handles)
    requires SameObjects(blocks, blocks') && forall n :: n in m ==> HandleOk(m[n], blocks)
    ensures forall n :: n in m ==> HandleOk(m[n], blocks')
  {
  }

  /** Changing counters of at most two blocks changes no object. */
  lemma OnKeepsObjects(blocks: Blocks, b: BlockId, f: Block -> Block, c: BlockId, g: Block -> Block)
    requires (b != 0 ==> b in blocks) && (c != 0 ==> c in blocks)
    requires forall k :: f(k).managed == k.managed && g(k).managed == k.managed
    ensures SameObjects(blocks, On(On(blocks, b, f), c, g))
  {
  }

  lemma CountedShift(k: Block, owners: nat, weaks: nat, gain: bool, loss: bool)
    requires Counted(k, owners, weaks) && (gain || loss ==> owners > 0)
    ensures var k1 := if gain then Acquired(k) else k;
            var k2 := if loss then Released(k1) else k1;
            Counted(k2, owners + (if gain then 1 else 0) - (if loss then 1 else 0), weaks)
  {
  }

  lemma SetSharedCounts(blocks: Blocks, shared: Handles, weak: Handles, h: Name, x: Handle, b: BlockId)
    requires Sound(blocks, shared, weak) && HandleOk(x, blocks) && b in blocks
    requires x.pn != 0 ==> |Holders(shared, x.pn)| > 0
    ensures var blocks' := On(On(blocks, x.pn, Acquired), BlockAt(shared, h), Released);
            Counted(blocks'[b], |Holders(shared[h := x], b)|, |Holders(weak, b)|)
  {
    if h in shared { HolderCounts(shared, h); }
    HoldersSet(shared, h, x, b);
    CountedShift(blocks[b], |Holders(shared, b)|, |Holders(weak, b)|, x.pn == b, BlockAt(shared, h) == b);
  }

  /** An owner is set to the value of some other owner, or to null: the new block is acquired, then the
      old one released. */
  lemma SetShared(blocks: Blocks, shared: Handles, weak: Handles, h: Name, x: Handle)
    requires Sound(blocks, shared, weak) && HandleOk(x, blocks)
    requires x.pn != 0 ==> |Holders(shared, x.pn)| > 0
    ensures Sound(On(On(blocks, x.pn, Acquired), BlockAt(shared, h), Released), shared[h := x], weak)
  {
    var blocks' := On(On(blocks, x.pn, Acquired), BlockAt(shared, h), Released);
    OnKeepsObjects(blocks, x.pn, Acquired, BlockAt(shared, h), Released);
    SameHandles(blocks, blocks', shared[h := x]);
    SameHandles(blocks, blocks', weak);
    forall b | b in blocks' ensures Counted(blocks'[b], |Holders(shared[h := x], b)|, |Holders(weak, b)|) {
      SetSharedCounts(blocks, shared, weak, h, x, b);
    }
  }

  lemma OwnedIff(blocks: Blocks, shared: Handles, weak: Handles, b: BlockId)
    requires Sound(blocks, shared, weak) && (b != 0 ==> b in blocks)
    ensures Owned(shared, b) <==> b != 0 && blocks[b].use > 0
  {
    if b != 0 {
      assert Counted(blocks[b], |Holders(shared, b)|, |Holders(weak, b)|);
      if n :| n in shared && shared[n].pn == b {
        assert n in Holders(shared, b);
      } else {
        assert Holders(shared, b) == {};
      }
    }
  }

  lemma RemoveShared(blocks: Blocks, shared: Handles, weak: Handles, h: Name)
    requires Sound(blocks, shared, weak) && h in shared
    ensures Sound(On(blocks, shared[h].pn, Released), shared - {h}, weak)
  {
    var blocks' := On(blocks, shared[h].pn, Released);
    HolderCounts(shared, h);
    forall b | b in blocks' ensures Counted(blocks'[b], |Holders(shared - {h}, b)|, |Holders(weak, b)|) {
      HoldersRemove(shared, h, b);
    }
  }

  /** An owner of a new block takes a name that holds no block. */
  lemma AddShared(blocks: Blocks, shared: Handles, weak: Handles, h: Name, p: Pointer, b: BlockId, k: Block)
    requires Sound(blocks, shared, weak) && BlockAt(shared, h) == 0
    requires p != 0 && b != 0 && b !in blocks && Counted(k, 1, 0) && k.managed == p
    ensures Sound(blocks[b := k], shared[h := Handle(p, b)], weak)
  {
    assert Holders(shared, b) == {} && Holders(weak, b) == {};
    forall c | c in blocks[b := k]
      ensures Counted(blocks[b := k][c], |Holders(shared[h := Handle(p, b)], c)|, |Holders(weak, c)|)
    {
      HoldersSet(shared, h, Handle(p, b), c);
    }
  }

  lemma WeakCountedShift(k: Block, owners: nat, weaks: nat, gain: bool, loss: bool)
    requires Counted(k, owners, weaks) && (gain ==> owners > 0) && (loss ==> weaks > 0)
    ensures var k1 := if gain then WeakAcquired(k) else k;
            var k2 := if loss then WeakReleased(k1) else k1;
            Counted(k2, owners, weaks + (if gain then 1 else 0) - (if loss then 1 else 0))
  {
  }

  lemma SetWeakCounts(blocks: Blocks, shared: Handles, weak: Handles, w: Name, x: Handle, b: BlockId)
    requires Sound(blocks, shared, weak) && HandleOk(x, blocks) && b in blocks
    requires x.pn != 0 ==> |Holders(shared, x.pn)| > 0
    ensures var blocks' := On(On(blocks, x.pn, WeakAcquired), BlockAt(weak, w), WeakReleased);
            Counted(blocks'[b], |Holders(shared, b)|, |Holders(weak[w := x], b)|)
  {
    if w in weak { HolderCounts(weak, w); }
    HoldersSet(weak, w, x, b);
    WeakCountedShift(blocks[b], |Holders(shared, b)|, |Holders(weak, b)|, x.pn == b, BlockAt(weak, w) == b);
  }

  lemma SetWeakCountsAll(blocks: Blocks, shared: Handles, weak: Handles, w: Name, x: Handle)
    requires Sound(blocks, shared, weak) && HandleOk(x, blocks)
    requires x.pn != 0 ==> |Holders(shared, x.pn)| > 0
    ensures var blocks' := On(On(blocks, x.pn, WeakAcquired), BlockAt(weak, w), WeakReleased);
            forall b :: b in blocks' ==> Counted(blocks'[b], |Holders(shared, b)|, |Holders(weak[w := x], b)|)
  {
    forall b | b in blocks
      ensures Counted(On(On(blocks, x.pn, WeakAcquired), BlockAt(weak, w), WeakReleased)[b],
                      |Holders(shared, b)|, |Holders(weak[w := x], b)|)
    {
      SetWeakCounts(blocks, shared, weak, w, x, b);
    }
  }

  lemma SetWeak(blocks: Blocks, shared: Handles, weak: Handles, w: Name, x: Handle)
    requires Sound(blocks, shared, weak) && HandleOk(x, blocks)
    requires x.pn != 0 ==> |Holders(shared, x.pn)| > 0
    ensures Sound(On(On(blocks, x.pn, WeakAcquired), BlockAt(weak, w), WeakReleased), shared, weak[w := x])
  {
    var blocks' := On(On(blocks, x.pn, WeakAcquired), BlockAt(weak, w), WeakReleased);
    OnKeepsObjects(blocks, x.pn, WeakAcquired, BlockAt(weak, w), WeakReleased);
    SameHandles(blocks, blocks', shared);
    SameHandles(blocks, blocks', weak[w := x]);
    SetWeakCountsAll(blocks, shared, weak, w, x);
  }

  lemma RemoveWeak(blocks: Blocks, shared: Handles, weak: Handles, w: Name)
    requires Sound(blocks, shared, weak) && w in weak
    ensures Sound(On(blocks, weak[w].pn, WeakReleased), shared, weak - {w})
  {
    var blocks' := On(blocks, weak[w].pn, WeakReleased);
    HolderCounts(weak, w);
    forall b | b in blocks' ensures Counted(blocks'[b], |Holders(shared, b)|, |Holders(weak - {w}, b)|) {
      HoldersRemove(weak, w, b);
    }
  }

  // ---------- The reference meaning ----------

  /** Handles by name, and the raw pointers handed over so far: block `b` was made for `made[b - 1]`. */
  datatype Table = Table(shared: Handles, weak: Handles, made: seq<Pointer>)

  /** Count blocks are numbered as they are made. */
  function NextBlock(made: seq<Pointer>): BlockId { |made| + 1 }

  datatype Op =
    | MakeEmpty(h: Name)               // shared_ptr()
    | FromRaw(h: Name, p: Pointer)     // shared_ptr(p), p not null
    | Copy(h: Name, src: Name)         // shared_ptr(src)
    | Assign(h: Name, src: Name)       // h = src
    | Reset(h: Name)                   // h.reset()
    | ResetTo(h: Name, p: Pointer)     // h.reset(p)
    | Destroy(h: Name)                 // ~shared_ptr()
    | MakeWeak(w: Name, src: Name)     // weak_ptr(src)
    | Lock(h: Name, w: Name)           // h(w.lock())
    | WeakReset(w: Name)               // w.reset()
    | WeakDestroy(w: Name)             // ~weak_ptr()

  /** The operands exist, and a constructed handle is new. */
  predicate Applicable(t: Table, op: Op) {
    match op
    case MakeEmpty(h) => h !in t.shared
    case FromRaw(h, p) => h !in t.shared && p != 0
    case Copy(h, src) => h !in t.shared && src in t.shared
    case Assign(h, src) => h in t.shared && src in t.shared
    case Reset(h) => h in t.shared
    case ResetTo(h, p) => h in t.shared
    case Destroy(h) => h in t.shared
    case MakeWeak(w, src) => w !in t.weak && src in t.shared
    case Lock(h, w) => h !in t.shared && w in t.weak
    case WeakReset(w) => w in t.weak
    case WeakDestroy(w) => w in t.weak
  }

  /** What an operation means for the handles: no counter is consulted, a lock succeeds exactly when
      some owner of the same block is left. */
  ghost function Meaning(t: Table, op: Op): Table
    requires Applicable(t, op)
  {
    match op
    case MakeEmpty(h) => t.(shared := t.shared[h := Null])
    case FromRaw(h, p) => t.(shared := t.shared[h := Handle(p, NextBlock(t.made))], made := t.made + [p])
    case Copy(h, src) => t.(shared := t.shared[h := t.shared[src]])
    case Assign(h, src) => t.(shared := t.shared[h := t.shared[src]])
    case Reset(h) => t.(shared := t.shared[h := Null])
    case ResetTo(h, p) =>
      if p == 0 then t.(shared := t.shared[h := Null])
      else t.(shared := t.shared[h := Handle(p, NextBlock(t.made))], made := t.made + [p])
    case Destroy(h) => t.(shared := t.shared - {h})
    case MakeWeak(w, src) => t.(weak := t.weak[w := t.shared[src]])
    case Lock(h, w) =>
      t.(shared := t.shared[h := if Owned(t.shared, t.weak[w].pn) then t.weak[w] else Null])
    case WeakReset(w) => t.(weak := t.weak[w := Null])
    case WeakDestroy(w) => t.(weak := t.weak - {w})
  }

  /** The handles after a script; an operation that does not apply is skipped. */
  ghost function RunMeaning(t: Table, ops: seq<Op>): Table
    decreases |ops|
  {
    if ops == [] then t
    else
      var t' := RunMeaning(t, ops[..|ops| - 1]);
      var op := ops[|ops| - 1];
      if Applicable(t', op) then Meaning(t', op) else t'
  }

  const Start: Table := Table(map[], map[], [])

  // ---------- The heap with its counters ----------

  /** The blocks are the ones made so far, each for its object. */
  ghost predicate Made(blocks: Blocks, made: seq<Pointer>) {
    forall b: BlockId :: (b in blocks <==> 1 <= b <= |made|) && (b in blocks ==> blocks[b].managed == made[b - 1])
  }

  lemma OnKeepsMade(blocks: Blocks, b: BlockId, f: Block -> Block, c: BlockId, g: Block -> Block, made: seq<Pointer>)
    requires Made(blocks, made) && (b != 0 ==> b in blocks) && (c != 0 ==> c in blocks)
    requires forall k :: f(k).managed == k.managed && g(k).managed == k.managed
    ensures Made(On(On(blocks, b, f), c, g), made)
  {
    OnKeepsObjects(blocks, b, f, c, g);
  }

  lemma MadeGrows(blocks: Blocks, made: seq<Pointer>, k: Block)
    requires Made(blocks, made)
    ensures Made(blocks[NextBlock(made) := k], made + [k.managed])
  {
  }

  class PointerHeap {
    var blocks: Blocks
    var shared: Handles
    var weak: Handles
    var made: seq<Pointer>   // the object of each block made so far

    constructor ()
      ensures Valid() && View() == Start && blocks == map[]
    {
      blocks, shared, weak, made := map[], map[], map[], [];
    }

    ghost predicate Valid()
      reads this
    {
      Sound(blocks, shared, weak) && Made(blocks, made)
    }

    ghost function View(): Table
      reads this
    {
      Table(shared, weak, made)
    }

    // ---------- The count block ----------

    method Acquire(b: BlockId)
      requires b in blocks
      modifies this`blocks
      ensures blocks == old(blocks)[b := Acquired(old(blocks[b]))]
    {
      blocks := blocks[b := blocks[b].(use := blocks[b].use + 1)];
      blocks := blocks[b := blocks[b].(weak := blocks[b].weak + 1)];
    }

    method Release(b: BlockId)
      requires b in blocks
      modifies this`blocks
      ensures blocks == old(blocks)[b := Released(old(blocks[b]))]
    {
      blocks := blocks[b := blocks[b].(use := blocks[b].use - 1)];
      if blocks[b].use == 0 {
        blocks := blocks[b := blocks[b].(deletes := blocks[b].deletes + 1)];
        blocks := blocks[b := blocks[b].(weak := blocks[b].weak - 1)];
        if blocks[b].weak == 0 {
          blocks := blocks[b := blocks[b].(frees := blocks[b].frees + 1)];
        }
      } else {
        blocks := blocks[b := blocks[b].(weak := blocks[b].weak - 1)];
      }
    }

    method WeakAcquire(b: BlockId)
      requires b in blocks
      modifies this`blocks
      ensures blocks == old(blocks)[b := WeakAcquired(old(blocks[b]))]
    {
      blocks := blocks[b := blocks[b].(weak := blocks[b].weak + 1)];
    }

    method WeakRelease(b: BlockId)
      requires b in blocks
      modifies this`blocks
      ensures blocks == old(blocks)[b := WeakReleased(old(blocks[b]))]
    {
      blocks := blocks[b := blocks[b].(weak := blocks[b].weak - 1)];
      if blocks[b].weak == 0 {
        blocks := blocks[b := blocks[b].(frees := blocks[b].frees + 1)];
      }
    }

    /** The spin lock is free when operations do not overlap, so its loop ends at the first try. */
    method WeakLock(b: BlockId) returns (success: bool)
      requires b in blocks && blocks[b].spin == 0
      modifies this`blocks
      ensures success == (old(blocks[b]).use > 0)
      ensures blocks == if success then old(blocks)[b := Acquired(old(blocks[b]))] else old(blocks)
    {
      blocks := blocks[b := blocks[b].(spin := blocks[b].spin + 1)];
      blocks := blocks[b := blocks[b].(use := blocks[b].use + 1)];
      if blocks[b].use > 1 {
        blocks := blocks[b := blocks[b].(weak := blocks[b].weak + 1)];
        success := true;
      } else {
        blocks := blocks[b := blocks[b].(use := blocks[b].use - 1)];
        success := false;
      }
      blocks := blocks[b := blocks[b].(spin := blocks[b].spin - 1)];
    }

    // ---------- The handles ----------

    /** `shared_ptr::acquire` on a handle that has its block pointer already, or none. */
    method TakeOwnership(pn: BlockId, p: Pointer) returns (y: Handle)
      requires pn != 0 ==> pn in blocks
      modifies this`blocks, this`made
      ensures p == 0 ==> y == Handle(0, pn) && blocks == old(blocks) && made == old(made)
      ensures p != 0 && pn != 0 ==> y == Handle(p, pn) && made == old(made) && blocks == On(old(blocks), pn, Acquired)
      ensures p != 0 && pn == 0 ==> y == Handle(p, NextBlock(old(made))) && made == old(made) + [p] &&
                                    blocks == old(blocks)[NextBlock(old(made)) := Block(1, 1, 0, p, 0, 0)]
    {
      var c := pn;
      if p != 0 {
        if c == 0 {
          c := NextBlock(made);
          blocks := blocks[c := Block(0, 0, 0, p, 0, 0)];
          made := made + [p];
        }
        Acquire(c);
      }
      y := Handle(p, c);
    }

    /** `shared_ptr::release`. */
    method GiveUp(x: Handle)
      requires x.pn != 0 ==> x.pn in blocks
      modifies this`blocks
      ensures blocks == On(old(blocks), x.pn, Released)
    {
      if x.pn != 0 {
        Release(x.pn);
      }
    }

    method DoMakeEmpty(h: Name)
      requires Valid() && h !in shared
      modifies this
      ensures Valid() && shared == old(shared)[h := Null] && weak == old(weak) && made == old(made)
    {
      SetShared(blocks, shared, weak, h, Null);
      shared := shared[h := Null];
    }

    /** The constructor makes the block first and then acquires it. */
    method DoFromRaw(h: Name, p: Pointer)
      requires Valid() && h !in shared && p != 0
      modifies this
      ensures Valid() && weak == old(weak) && made == old(made) + [p] && NextBlock(old(made)) !in old(blocks)
      ensures shared == old(shared)[h := Handle(p, NextBlock(old(made)))]
    {
      ghost var was := blocks;
      var c := NextBlock(made);
      MadeGrows(blocks, made, Block(1, 1, 0, p, 0, 0));
      blocks := blocks[c := Block(0, 0, 0, p, 0, 0)];
      made := made + [p];
      var x := TakeOwnership(c, p);
      assert blocks == was[c := Block(1, 1, 0, p, 0, 0)];
      AddShared(was, shared, weak, h, p, c, Block(1, 1, 0, p, 0, 0));
      shared := shared[h := x];
    }

    method DoCopy(h: Name, src: Name)
      requires Valid() && h !in shared && src in shared
      modifies this
      ensures Valid() && shared == old(shared)[h := old(shared)[src]] && weak == old(weak) && made == old(made)
    {
      HolderCounts(shared, src);
      SetShared(blocks, shared, weak, h, shared[src]);
      OnKeepsMade(blocks, shared[src].pn, Acquired, BlockAt(shared, h), Released, made);
      var x := TakeOwnership(shared[src].pn, shared[src].px);
      shared := shared[h := x];
    }

    /** Copy and swap: the parameter is a copy of `src`, and the old value dies with it. */
    method AssignCode(h: Name, src: Name)
      requires h in shared && src in shared && (shared[src].px == 0 <==> shared[src].pn == 0)
      requires shared[src].pn != 0 ==> shared[src].pn in blocks
      requires shared[h].pn != 0 ==> shared[h].pn in blocks
      modifies this`blocks, this`shared, this`made
      ensures shared == old(shared)[h := old(shared)[src]] && made == old(made)
      ensures blocks == On(On(old(blocks), old(shared)[src].pn, Acquired), old(shared)[h].pn, Released)
    {
      var ptr := TakeOwnership(shared[src].pn, shared[src].px);
      shared, ptr := shared[h := ptr], shared[h];
      GiveUp(ptr);
    }

    method DoAssign(h: Name, src: Name)
      requires Valid() && h in shared && src in shared
      modifies this
      ensures Valid() && shared == old(shared)[h := old(shared)[src]] && weak == old(weak) && made == old(made)
    {
      HolderCounts(shared, src);
      SetShared(blocks, shared, weak, h, shared[src]);
      OnKeepsMade(blocks, shared[src].pn, Acquired, BlockAt(shared, h), Released, made);
      AssignCode(h, src);
    }

    method DoReset(h: Name)
      requires Valid() && h in shared
      modifies this
      ensures Valid() && shared == old(shared)[h := Null] && weak == old(weak) && made == old(made)
    {
      SetShared(blocks, shared, weak, h, Null);
      OnKeepsMade(blocks, 0, Acquired, shared[h].pn, Released, made);
      GiveUp(shared[h]);
      shared := shared[h := Null];
    }

    method DoResetTo(h: Name, p: Pointer)
      requires Valid() && h in shared
      modifies this
      ensures Valid() && weak == old(weak)
      ensures p == 0 ==> shared == old(shared)[h := Null] && made == old(made)
      ensures p != 0 ==> shared == old(shared)[h := Handle(p, NextBlock(old(made)))] && made == old(made) + [p]
    {
      DoReset(h);
      Refill(h, p);
      assert p != 0 ==> old(shared)[h := Null][h := Handle(p, NextBlock(old(made)))] == old(shared)[h := Handle(p, NextBlock(old(made)))];
    }

    /** The second half of `reset(p)`, on a handle that is null. */
    method Refill(h: Name, p: Pointer)
      requires Valid() && h in shared && shared[h] == Null
      modifies this
      ensures Valid() && weak == old(weak)
      ensures p == 0 ==> shared == old(shared) && made == old(made)
      ensures p != 0 ==> shared == old(shared)[h := Handle(p, NextBlock(old(made)))] && made == old(made) + [p]
    {
      if p != 0 {
        AddShared(blocks, shared, weak, h, p, NextBlock(made), Block(1, 1, 0, p, 0, 0));
        MadeGrows(blocks, made, Block(1, 1, 0, p, 0, 0));
      }
      var x := TakeOwnership(0, p);
      shared := shared[h := x];
      assert p == 0 ==> shared == old(shared);
    }

    method DoDestroy(h: Name)
      requires Valid() && h in shared
      modifies this
      ensures Valid() && shared == old(shared) - {h} && weak == old(weak) && made == old(made)
    {
      RemoveShared(blocks, shared, weak, h);
      OnKeepsMade(blocks, 0, Acquired, shared[h].pn, Released, made);
      GiveUp(shared[h]);
      shared := shared - {h};
    }

    method DoMakeWeak(w: Name, src: Name)
      requires Valid() && w !in weak && src in shared
      modifies this
      ensures Valid() && weak == old(weak)[w := old(shared)[src]] && shared == old(shared) && made == old(made)
    {
      HolderCounts(shared, src);
      SetWeak(blocks, shared, weak, w, shared[src]);
      OnKeepsMade(blocks, shared[src].pn, WeakAcquired, 0, WeakReleased, made);
      if shared[src].pn != 0 {
        WeakAcquire(shared[src].pn);
      }
      weak := weak[w := shared[src]];
    }

    method DoLock(h: Name, w: Name)
      requires Valid() && h !in shared && w in weak
      modifies this
      ensures Valid() && weak == old(weak) && made == old(made)
      ensures shared == old(shared)[h := if Owned(old(shared), weak[w].pn) then weak[w] else Null]
    {
      var x, success := weak[w], false;
      OwnedIff(blocks, shared, weak, x.pn);
      if x.pn != 0 && blocks[x.pn].use > 0 {
        SetShared(blocks, shared, weak, h, x);
        OnKeepsMade(blocks, x.pn, Acquired, 0, Released, made);
      } else {
        SetShared(blocks, shared, weak, h, Null);
      }
      if x.pn != 0 {
        success := WeakLock(x.pn);
      }
      shared := shared[h := if success then x else Null];
    }

    method DoWeakReset(w: Name)
      requires Valid() && w in weak
      modifies this
      ensures Valid() && weak == old(weak)[w := Null] && shared == old(shared) && made == old(made)
    {
      SetWeak(blocks, shared, weak, w, Null);
      OnKeepsMade(blocks, 0, WeakAcquired, weak[w].pn, WeakReleased, made);
      if weak[w].pn != 0 {
        WeakRelease(weak[w].pn);
      }
      weak := weak[w := Null];
    }

    method DoWeakDestroy(w: Name)
      requires Valid() && w in weak
      modifies this
      ensures Valid() && weak == old(weak) - {w} && shared == old(shared) && made == old(made)
    {
      RemoveWeak(blocks, shared, weak, w);
      OnKeepsMade(blocks, 0, WeakAcquired, weak[w].pn, WeakReleased, made);
      if weak[w].pn != 0 {
        WeakRelease(weak[w].pn);
      }
      weak := weak - {w};
    }

    method Do(op: Op)
      requires Valid() && Applicable(View(), op)
      modifies this
      ensures Valid() && View() == Meaning(old(View()), op)
    {
      match op {
        case MakeEmpty(h) => DoMakeEmpty(h);
        case FromRaw(h, p) => DoFromRaw(h, p);
        case Copy(h, src) => DoCopy(h, src);
        case Assign(h, src) => DoAssign(h, src);
        case Reset(h) => DoReset(h);
        case ResetTo(h, p) => DoResetTo(h, p);
        case Destroy(h) => DoDestroy(h);
        case MakeWeak(w, src) => DoMakeWeak(w, src);
        case Lock(h, w) => DoLock(h, w);
        case WeakReset(w) => DoWeakReset(w);
        case WeakDestroy(w) => DoWeakDestroy(w);
      }
    }
  }

  /** Any script at all, from an empty heap: the handles are the ones the reference meaning gives, and
      every block counts them exactly; if no raw pointer was handed over twice, every object is deleted at
      most once, and exactly when no handle owns it. */
  method Execute(ops: seq<Op>) returns (heap: PointerHeap)
    ensures fresh(heap) && heap.Valid() && heap.View() == RunMeaning(Start, ops)
    ensures Distinct(heap.made) ==> Once(heap.View())
  {
    heap := new PointerHeap();
    for i := 0 to |ops|
      invariant fresh(heap) && heap.Valid() && heap.View() == RunMeaning(Start, ops[..i])
    {
      assert ops[..i + 1][..i] == ops[..i];
      if Applicable(Table(heap.shared, heap.weak, heap.made), ops[i]) {
        heap.Do(ops[i]);
      }
    }
    assert ops[..|ops|] == ops;
    RunOk(ops);
    if Distinct(heap.made) {
      DistinctOnce(heap.View());
    }
  }

  // ---------- Objects ----------

  /** The blocks that have deleted the object `p`: those made for it that have no owner left. */
  ghost function Deleters(t: Table, p: Pointer): set<BlockId> {
    set b: BlockId | 1 <= b <= |t.made| && t.made[b - 1] == p && Holders(t.shared, b) == {}
  }

  /** That is what the heap records: a block has deleted its object at most once, and has done so exactly
      when it is one of these. */
  lemma DeletersRecorded(blocks: Blocks, t: Table, p: Pointer)
    requires Sound(blocks, t.shared, t.weak) && Made(blocks, t.made)
    ensures forall b :: b in blocks ==> blocks[b].deletes <= 1
    ensures forall b :: b in Deleters(t, p) <==> b in blocks && blocks[b].managed == p && blocks[b].deletes == 1
  {
    forall b | b in blocks ensures blocks[b].deletes == (if Holders(t.shared, b) == {} then 1 else 0) {
      assert Counted(blocks[b], |Holders(t.shared, b)|, |Holders(t.weak, b)|);
    }
  }

  /** Every object handed over is deleted at most once, and exactly when no handle owns it. */
  ghost predicate Once(t: Table) {
    forall p :: p in t.made ==>
      |Deleters(t, p)| <= 1 && (|Deleters(t, p)| == 1 <==> forall h :: h in t.shared ==> t.shared[h].px != p)
  }

  /** No raw pointer was handed over twice. */
  predicate Distinct(made: seq<Pointer>) { forall i, j :: 0 <= i < j < |made| ==> made[i] != made[j] }

  predicate Points(made: seq<Pointer>, x: Handle) {
    x == Null || (1 <= x.pn <= |made| && x.px == made[x.pn - 1])
  }

  /** Handles point to blocks that were made, and to their objects. */
  ghost predicate TableOk(t: Table) {
    && (forall i :: 0 <= i < |t.made| ==> t.made[i] != 0)
    && (forall n :: n in t.shared ==> Points(t.made, t.shared[n]))
    && (forall n :: n in t.weak ==> Points(t.made, t.weak[n]))
  }

  lemma {:induction false} RunOk(ops: seq<Op>)
    ensures TableOk(RunMeaning(Start, ops))
    decreases |ops|
  {
    if ops != [] {
      RunOk(ops[..|ops| - 1]);
    }
  }

  lemma DistinctOnce(t: Table)
    requires TableOk(t) && Distinct(t.made)
    ensures Once(t)
  {
    forall p | p in t.made
      ensures |Deleters(t, p)| <= 1 && (|Deleters(t, p)| == 1 <==> forall h :: h in t.shared ==> t.shared[h].px != p)
    {
      var i :| 0 <= i < |t.made| && t.made[i] == p;
      DeletersOfDistinct(t, i);
    }
  }

  lemma DeletersOfDistinct(t: Table, i: nat)
    requires TableOk(t) && Distinct(t.made) && i < |t.made|
    ensures Deleters(t, t.made[i]) == if forall h :: h in t.shared ==> t.shared[h].px != t.made[i] then {i + 1} else {}
  {
    var p := t.made[i];
    assert forall k :: 0 <= k < |t.made| && t.made[k] == p ==> k == i;
    if h :| h in t.shared && t.shared[h].px == p {
      assert Points(t.made, t.shared[h]);
      assert h in Holders(t.shared, i + 1);
    } else {
      forall h | h in t.shared ensures t.shared[h].pn != i + 1 {
        assert Points(t.made, t.shared[h]);
      }
      assert Holders(t.shared, i + 1) == {};
    }
  }

  function Destroys(hs: seq<Name>): seq<Op> { seq(|hs|, i requires 0 <= i < |hs| => Destroy(hs[i])) }

  lemma {:induction false} DestroysMakeNothing(ops: seq<Op>, hs: seq<Name>)
    ensures RunMeaning(Start, ops + Destroys(hs)).made == RunMeaning(Start, ops).made
    decreases |hs|
  {
    var n := |hs|;
    if n == 0 {
      assert ops + Destroys(hs) == ops;
    } else {
      DestroysMakeNothing(ops, hs[..n - 1]);
      assert (ops + Destroys(hs))[..|ops| + n - 1] == ops + Destroys(hs[..n - 1]);
    }
  }

  /** Every script can be ended by destroying the owners that are left. */
  lemma {:induction false} DestroyAll(ops: seq<Op>) returns (hs: seq<Name>)
    ensures RunMeaning(Start, ops + Destroys(hs)).shared == map[]
    decreases |RunMeaning(Start, ops).shared|
  {
    var t := RunMeaning(Start, ops);
    if t.shared == map[] {
      hs := [];
      assert ops + Destroys(hs) == ops;
    } else {
      var h :| h in t.shared;
      var ops' := ops + [Destroy(h)];
      assert ops'[..|ops|] == ops;
      assert t.shared.Keys == (t.shared - {h}).Keys + {h};
      var rest := DestroyAll(ops');
      hs := [h] + rest;
      assert ops + Destroys(hs) == ops' + Destroys(rest);
    }
  }

  lemma TwoDeleters(t: Table, i: nat, j: nat)
    requires i < j < |t.made| && t.made[i] == t.made[j] && t.shared == map[]
    ensures !Once(t)
  {
    var p := t.made[i];
    assert {i + 1, j + 1} <= Deleters(t, p);
    SubsetSize({i + 1, j + 1}, Deleters(t, p));
    assert p in t.made;
  }

  lemma {:induction false} SubsetSize(a: set<BlockId>, b: set<BlockId>)
    requires a <= b
    ensures |a| <= |b|
    decreases a
  {
    if x :| x in a {
      SubsetSize(a - {x}, b - {x});
    }
  }

  /** However the owners left by a script are destroyed, every object is deleted at most once, and exactly
      when its last owner goes, if and only if the script hands no raw pointer over twice. */
  lemma OnceIff(ops: seq<Op>)
    ensures (forall hs :: Once(RunMeaning(Start, ops + Destroys(hs)))) <==> Distinct(RunMeaning(Start, ops).made)
  {
    var made := RunMeaning(Start, ops).made;
    if Distinct(made) {
      forall hs ensures Once(RunMeaning(Start, ops + Destroys(hs))) {
        DestroysMakeNothing(ops, hs);
        RunOk(ops + Destroys(hs));
        DistinctOnce(RunMeaning(Start, ops + Destroys(hs)));
      }
    } else {
      var i, j :| 0 <= i < j < |made| && made[i] == made[j];
      var hs := DestroyAll(ops);
      DestroysMakeNothing(ops, hs);
      TwoDeleters(RunMeaning(Start, ops + Destroys(hs)), i, j);
    }
  }

  /** For example two owners of one object, made apart: when the first goes, the object is deleted under the
      second. */
  lemma OwnedTwice(p: Pointer)
    requires p != 0
    ensures var t := RunMeaning(Start, [FromRaw(0, p), FromRaw(1, p), Destroy(0)]);
            Deleters(t, p) != {} && 1 in t.shared && t.shared[1].px == p
  {
    var a, b, c := FromRaw(0, p), FromRaw(1, p), Destroy(0);
    assert [a, b, c][..2] == [a, b] && [a, b][..1] == [a] && [a][..0] == [];
    assert RunMeaning(Start, []) == Start;
    var t1, t2, t := RunMeaning(Start, [a]), RunMeaning(Start, [a, b]), RunMeaning(Start, [a, b, c]);
    assert t1.shared == map[0 := Handle(p, 1)] && t1.made == [p];
    assert t2.shared == map[0 := Handle(p, 1), 1 := Handle(p, 2)] && t2.made == [p, p];
    assert t.shared == map[1 := Handle(p, 2)] && t.made == [p, p];
    assert 1 in Deleters(t, p);
  }
}
