/** `Buffer`: contents kept inside the object while they fit, on the heap otherwise.

    Sizes are in bytes.  The heap holds every allocated block and every buffer by name, so that a block
    freed twice, leaked or owned twice would show.  The reference meaning is a plain byte sequence per
    buffer; a byte that the original leaves uninitialised has no known value there. */
module Buffers {

  type Byte = bv8
  type Name = nat
  type BlockId = nat   // the address of a heap block; zero is null

  /** `inline` is the internal buffer, `block` the allocated one. */
  datatype Buf = Buf(block: BlockId, size: nat, inline: seq<Byte>)

  type Blocks = map<BlockId, seq<Byte>>
  type Bufs = map<Name, Buf>
  type Vars = map<Name, BlockId>   // raw pointers that clients hold and own

  // ---------- The reference meaning ----------

  datatype Cell = Known(value: Byte) | Unknown

  type Cells = seq<Cell>

  function Exactly(s: seq<Byte>): (c: Cells)
    ensures |c| == |s| && forall i :: 0 <= i < |s| ==> c[i] == Known(s[i])
  {
    seq(|s|, i requires 0 <= i < |s| => Known(s[i]))
  }

  function Zeros(n: nat): (z: seq<Byte>)
    ensures |z| == n && forall i :: 0 <= i < n ==> z[i] == 0
  {
    seq(n, _ => 0)
  }

  /** The common prefix stays, what is added is unknown. */
  function Resized(c: Cells, n: nat): (r: Cells)
    ensures |r| == n && forall i :: 0 <= i < n && i < |c| ==> r[i] == c[i]
  {
    if n <= |c| then c[..n] else c + seq(n - |c|, _ => Unknown)
  }

  /** Plain sequences: the buffers, and the blocks clients own. */
  datatype Model = Model(bufs: map<Name, Cells>, vars: map<Name, Cells>)

  datatype Op =
    | Empty(n: Name)                          // Buffer()
    | Sized(n: Name, bytes: nat)              // Buffer(numElements)
    | From(n: Name, data: seq<Byte>)          // Buffer(data, numElements)
    | Copy(n: Name, src: Name)                // Buffer(src)
    | Move(n: Name, src: Name)                // Buffer(std::move(src))
    | Destroy(n: Name)                        // ~Buffer()
    | Store(n: Name, i: nat, v: Byte)         // buffer[i] = v
    | Realloc(n: Name, bytes: nat)            // realloc(numElements)
    | Set(n: Name, data: seq<Byte>)           // set(data, numElements)
    | SetPreallocated(n: Name, x: Name)       // setPreallocated(x, size of x)
    | Take(x: Name, n: Name)                  // x = takeBuffer()

  predicate Applicable(m: Model, op: Op) {
    match op
    case Empty(n) => n !in m.bufs
    case Sized(n, _) => n !in m.bufs
    case From(n, _) => n !in m.bufs
    case Copy(n, src) => n !in m.bufs && src in m.bufs
    case Move(n, src) => n !in m.bufs && src in m.bufs
    case Destroy(n) => n in m.bufs
    case Store(n, i, _) => n in m.bufs && i < |m.bufs[n]|
    case Realloc(n, _) => n in m.bufs
    case Set(n, _) => n in m.bufs
    case SetPreallocated(n, x) => n in m.bufs && x in m.vars
    case Take(x, n) => n in m.bufs && x !in m.vars
  }

  function Meaning(m: Model, op: Op): Model
    requires Applicable(m, op)
  {
    match op
    case Empty(n) => m.(bufs := m.bufs[n := []])
    case Sized(n, bytes) => m.(bufs := m.bufs[n := Exactly(Zeros(bytes))])
    case From(n, data) => m.(bufs := m.bufs[n := Exactly(data)])
    case Copy(n, src) => m.(bufs := m.bufs[n := m.bufs[src]])
    case Move(n, src) => m.(bufs := m.bufs[n := m.bufs[src]][src := []])
    case Destroy(n) => m.(bufs := m.bufs - {n})
    case Store(n, i, v) => m.(bufs := m.bufs[n := m.bufs[n][i := Known(v)]])
    case Realloc(n, bytes) => m.(bufs := m.bufs[n := Resized(m.bufs[n], bytes)])
    case Set(n, data) => m.(bufs := m.bufs[n := Exactly(data)])
    case SetPreallocated(n, x) => Model(m.bufs[n := m.vars[x]], m.vars - {x})
    case Take(x, n) => Model(m.bufs[n := []], m.vars[x := m.bufs[n]])
  }

  predicate Certain(c: Cells) { forall i :: 0 <= i < |c| ==> c[i].Known? }

  /** Every byte of every buffer and every client's block is known. */
  ghost predicate AllKnown(m: Model) {
    (forall n :: n in m.bufs ==> Certain(m.bufs[n])) && (forall x :: x in m.vars ==> Certain(m.vars[x]))
  }

  /** Only growing a buffer makes bytes unknown. */
  lemma KnownStays(m: Model, op: Op)
    requires AllKnown(m) && Applicable(m, op) && (op.Realloc? ==> op.bytes <= |m.bufs[op.n]|)
    ensures AllKnown(Meaning(m, op))
  {
  }

  /** The bytes are those of the model wherever the model knows them. */
  predicate Refines(s: seq<Byte>, c: Cells) {
    |s| == |c| && forall i :: 0 <= i < |s| ==> c[i] == Unknown || c[i] == Known(s[i])
  }

  // ---------- The representation ----------

  function Bytes(blocks: Blocks, b: Buf): seq<Byte>
    requires Shaped(blocks, b)
  {
    if b.block != 0 then blocks[b.block] else b.inline[..b.size]
  }

  /** A heap block is as long as the size says; otherwise the contents fit inside. */
  predicate Shaped(blocks: Blocks, b: Buf) {
    if b.block != 0 then b.block in blocks && |blocks[b.block]| == b.size else b.size <= |b.inline|
  }

  /** Who owns a block: a buffer, or a client's pointer. */
  datatype Owner = ByBuffer(n: Name) | ByClient(x: Name)

  type Owners = map<BlockId, Owner>

  predicate Owns(bufs: Bufs, vars: Vars, o: Owner, b: BlockId) {
    match o
    case ByBuffer(n) => n in bufs && bufs[n].block == b
    case ByClient(x) => x in vars && vars[x] == b
  }

  /** Every allocated block has exactly one owner, the one `owner` names. */
  ghost predicate OneOwner(blocks: Blocks, bufs: Bufs, vars: Vars, owner: Owners) {
    && owner.Keys == blocks.Keys
    && (forall b :: b in owner ==> Owns(bufs, vars, owner[b], b))
    && (forall n :: n in bufs && bufs[n].block != 0 ==> bufs[n].block in owner && owner[bufs[n].block] == ByBuffer(n))
    && (forall x :: x in vars ==> vars[x] in owner && owner[vars[x]] == ByClient(x))
  }

  ghost predicate Sound(capacity: nat, blocks: Blocks, bufs: Bufs, vars: Vars, owner: Owners) {
    && 0 !in blocks
    && (forall n :: n in bufs ==> |bufs[n].inline| == capacity && Shaped(blocks, bufs[n]))
    && OneOwner(blocks, bufs, vars, owner)
  }

  /** No block has two owners, and none has no owner. */
  lemma OwnersAreUnique(capacity: nat, blocks: Blocks, bufs: Bufs, vars: Vars, owner: Owners, b: BlockId)
    requires Sound(capacity, blocks, bufs, vars, owner) && b in blocks
    ensures Owns(bufs, vars, owner[b], b)
    ensures forall o :: Owns(bufs, vars, o, b) ==> o == owner[b]
  {
  }

  /** The `memcpy` out of the heap block in `realloc` stays inside the block. */
  predicate InBounds(b: Buf, bytes: nat) { b.block != 0 && bytes <= |b.inline| ==> bytes <= b.size }

  /** It does so for every new size exactly when the block is not shorter than the internal buffer. */
  lemma InBoundsIff(b: Buf)
    ensures (forall bytes :: InBounds(b, bytes)) <==> b.block == 0 || |b.inline| <= b.size
  {
    if forall bytes :: InBounds(b, bytes) {
      assert InBounds(b, |b.inline|);
    }
  }

  ghost function BufBytes(blocks: Blocks, bufs: Bufs): map<Name, seq<Byte>>
    requires forall n :: n in bufs ==> Shaped(blocks, bufs[n])
  {
    map n | n in bufs :: Bytes(blocks, bufs[n])
  }

  ghost function VarBytes(blocks: Blocks, vars: Vars): map<Name, seq<Byte>>
    requires forall x :: x in vars ==> vars[x] in blocks
  {
    map x | x in vars :: blocks[vars[x]]
  }

  // ---------- What single changes do ----------

  /** The whole representation as one value. */
  datatype Rep = Rep(blocks: Blocks, bufs: Bufs, vars: Vars, owner: Owners)

  ghost predicate Ok(capacity: nat, r: Rep) { Sound(capacity, r.blocks, r.bufs, r.vars, r.owner) }

  /** Only buffer `n` changes, to `s`. */
  ghost predicate Only(capacity: nat, r: Rep, r': Rep, n: Name, s: seq<Byte>) {
    && Ok(capacity, r) && Ok(capacity, r')
    && BufBytes(r'.blocks, r'.bufs) == BufBytes(r.blocks, r.bufs)[n := s]
    && VarBytes(r'.blocks, r'.vars) == VarBytes(r.blocks, r.vars)
  }

  /** A buffer without a block takes new inline contents. */
  lemma SetInline(capacity: nat, r: Rep, n: Name, b: Buf)
    requires Ok(capacity, r) && (n in r.bufs ==> r.bufs[n].block == 0)
    requires b.block == 0 && |b.inline| == capacity && b.size <= capacity
    ensures Only(capacity, r, r.(bufs := r.bufs[n := b]), n, b.inline[..b.size])
  {
  }

  function WithFresh(r: Rep, n: Name, b: Buf, contents: seq<Byte>): Rep {
    Rep(r.blocks[b.block := contents], r.bufs[n := b], r.vars, r.owner[b.block := ByBuffer(n)])
  }

  lemma SetFreshOwner(r: Rep, n: Name, b: Buf, contents: seq<Byte>)
    requires OneOwner(r.blocks, r.bufs, r.vars, r.owner) && (n in r.bufs ==> r.bufs[n].block == 0)
    requires 0 !in r.blocks && b.block != 0 && b.block !in r.blocks
    ensures var r' := WithFresh(r, n, b, contents); OneOwner(r'.blocks, r'.bufs, r'.vars, r'.owner)
  {
  }

  lemma SetFreshOk(capacity: nat, r: Rep, n: Name, b: Buf, contents: seq<Byte>)
    requires Ok(capacity, r) && (n in r.bufs ==> r.bufs[n].block == 0)
    requires b.block != 0 && b.block !in r.blocks && |b.inline| == capacity && b.size == |contents|
    ensures Ok(capacity, WithFresh(r, n, b, contents))
  {
    SetFreshOwner(r, n, b, contents);
  }

  lemma SetFreshBytes(capacity: nat, r: Rep, n: Name, b: Buf, contents: seq<Byte>)
    requires Ok(capacity, r) && Ok(capacity, WithFresh(r, n, b, contents)) && b.block != 0 && b.block !in r.blocks
    ensures var r' := WithFresh(r, n, b, contents); BufBytes(r'.blocks, r'.bufs) == BufBytes(r.blocks, r.bufs)[n := contents]
  {
  }

  lemma SetFreshVars(capacity: nat, r: Rep, n: Name, b: Buf, contents: seq<Byte>)
    requires Ok(capacity, r) && Ok(capacity, WithFresh(r, n, b, contents)) && b.block !in r.blocks
    ensures var r' := WithFresh(r, n, b, contents); VarBytes(r'.blocks, r'.vars) == VarBytes(r.blocks, r.vars)
  {
  }

  /** A buffer without a block takes a new one. */
  lemma SetFresh(capacity: nat, r: Rep, n: Name, b: Buf, contents: seq<Byte>)
    requires Ok(capacity, r) && (n in r.bufs ==> r.bufs[n].block == 0)
    requires b.block != 0 && b.block !in r.blocks && |b.inline| == capacity && b.size == |contents|
    ensures Only(capacity, r, WithFresh(r, n, b, contents), n, contents)
  {
    SetFreshOk(capacity, r, n, b, contents);
    SetFreshBytes(capacity, r, n, b, contents);
    SetFreshVars(capacity, r, n, b, contents);
  }

  /** A buffer gives its block back and becomes inline. */
  lemma DropBlock(capacity: nat, r: Rep, n: Name, b: Buf)
    requires Ok(capacity, r) && n in r.bufs && r.bufs[n].block != 0
    requires b.block == 0 && |b.inline| == capacity && b.size <= capacity
    ensures var id := r.bufs[n].block;
            Only(capacity, r, Rep(r.blocks - {id}, r.bufs[n := b], r.vars, r.owner - {id}), n, b.inline[..b.size])
  {
  }

  /** The bytes of a buffer's block are overwritten. */
  lemma SetBlock(capacity: nat, r: Rep, n: Name, contents: seq<Byte>)
    requires Ok(capacity, r) && n in r.bufs && r.bufs[n].block != 0 && |contents| == r.bufs[n].size
    ensures Only(capacity, r, r.(blocks := r.blocks[r.bufs[n].block := contents]), n, contents)
  {
  }

  /** A buffer without a block disappears. */
  lemma Forget(capacity: nat, r: Rep, n: Name)
    requires Ok(capacity, r) && n in r.bufs && r.bufs[n].block == 0
    ensures var r' := r.(bufs := r.bufs - {n});
            && Ok(capacity, r')
            && BufBytes(r'.blocks, r'.bufs) == BufBytes(r.blocks, r.bufs) - {n}
            && VarBytes(r'.blocks, r'.vars) == VarBytes(r.blocks, r.vars)
  {
  }

  /** A block passes from one buffer to another that has none. */
  lemma PassBlock(capacity: nat, r: Rep, n: Name, src: Name, inline: seq<Byte>)
    requires Ok(capacity, r) && src in r.bufs && n !in r.bufs && r.bufs[src].block != 0 && |inline| == capacity
    ensures var b := r.bufs[src];
            var r' := Rep(r.blocks, r.bufs[n := Buf(b.block, b.size, inline)][src := Buf(0, 0, b.inline)], r.vars,
                          r.owner[b.block := ByBuffer(n)]);
            && Ok(capacity, r')
            && BufBytes(r'.blocks, r'.bufs) == BufBytes(r.blocks, r.bufs)[n := Bytes(r.blocks, b)][src := []]
            && VarBytes(r'.blocks, r'.vars) == VarBytes(r.blocks, r.vars)
  {
  }

  /** A block passes from a buffer to a client's pointer. */
  lemma BlockToClient(capacity: nat, r: Rep, n: Name, x: Name)
    requires Ok(capacity, r) && n in r.bufs && r.bufs[n].block != 0 && x !in r.vars
    ensures var b := r.bufs[n];
            var r' := Rep(r.blocks, r.bufs[n := Buf(0, 0, b.inline)], r.vars[x := b.block], r.owner[b.block := ByClient(x)]);
            && Ok(capacity, r')
            && BufBytes(r'.blocks, r'.bufs) == BufBytes(r.blocks, r.bufs)[n := []]
            && VarBytes(r'.blocks, r'.vars) == VarBytes(r.blocks, r.vars)[x := Bytes(r.blocks, b)]
  {
  }

  /** A client's block passes to a buffer that has none. */
  lemma ClientToBlock(capacity: nat, r: Rep, n: Name, x: Name)
    requires Ok(capacity, r) && n in r.bufs && r.bufs[n].block == 0 && x in r.vars
    ensures var c := r.blocks[r.vars[x]];
            var r' := Rep(r.blocks, r.bufs[n := Buf(r.vars[x], |c|, r.bufs[n].inline)], r.vars - {x}, r.owner[r.vars[x] := ByBuffer(n)]);
            && Ok(capacity, r')
            && BufBytes(r'.blocks, r'.bufs) == BufBytes(r.blocks, r.bufs)[n := c]
            && VarBytes(r'.blocks, r'.vars) == VarBytes(r.blocks, r.vars) - {x}
  {
  }

  function WithClient(r: Rep, x: Name, id: BlockId, contents: seq<Byte>): Rep {
    Rep(r.blocks[id := contents], r.bufs, r.vars[x := id], r.owner[id := ByClient(x)])
  }

  lemma FreshToClientOk(capacity: nat, r: Rep, x: Name, id: BlockId, contents: seq<Byte>)
    requires Ok(capacity, r) && id != 0 && id !in r.blocks && x !in r.vars
    ensures Ok(capacity, WithClient(r, x, id, contents))
  {
  }

  lemma FreshToClientBytes(capacity: nat, r: Rep, x: Name, id: BlockId, contents: seq<Byte>)
    requires Ok(capacity, r) && Ok(capacity, WithClient(r, x, id, contents)) && id !in r.blocks
    ensures var r' := WithClient(r, x, id, contents); BufBytes(r'.blocks, r'.bufs) == BufBytes(r.blocks, r.bufs)
  {
  }

  lemma FreshToClientVars(capacity: nat, r: Rep, x: Name, id: BlockId, contents: seq<Byte>)
    requires Ok(capacity, r) && Ok(capacity, WithClient(r, x, id, contents)) && id !in r.blocks
    ensures var r' := WithClient(r, x, id, contents); VarBytes(r'.blocks, r'.vars) == VarBytes(r.blocks, r.vars)[x := contents]
  {
  }

  /** A client gets a new block. */
  lemma FreshToClient(capacity: nat, r: Rep, x: Name, id: BlockId, contents: seq<Byte>)
    requires Ok(capacity, r) && id != 0 && id !in r.blocks && x !in r.vars
    ensures var r' := WithClient(r, x, id, contents);
            && Ok(capacity, r')
            && BufBytes(r'.blocks, r'.bufs) == BufBytes(r.blocks, r.bufs)
            && VarBytes(r'.blocks, r'.vars) == VarBytes(r.blocks, r.vars)[x := contents]
  {
    FreshToClientOk(capacity, r, x, id, contents);
    FreshToClientBytes(capacity, r, x, id, contents);
    FreshToClientVars(capacity, r, x, id, contents);
  }

  // ---------- The buffers ----------

  class BufferHeap {
    const capacity: nat      // sizeof(m_internalBuffer)
    var blocks: Blocks       // what the allocator has handed out
    var bufs: Bufs
    var vars: Vars
    var next: BlockId        // the next address the allocator returns
    ghost var owner: Owners

    constructor (capacity: nat)
      ensures this.capacity == capacity && Valid() && Contents() == map[] && Taken() == map[] && blocks == map[]
    {
      this.capacity := capacity;
      blocks, bufs, vars, next, owner := map[], map[], map[], 1, map[];
    }

    ghost function View(): Rep
      reads this
    {
      Rep(blocks, bufs, vars, owner)
    }

    ghost predicate Fresh()
      reads this
    {
      next > 0 && forall b :: b in blocks ==> b < next
    }

    ghost predicate Valid()
      reads this
    {
      Ok(capacity, View()) && Fresh()
    }

    /** No heap block is shorter than the internal buffer. */
    ghost predicate Roomy()
      reads this
    {
      forall n :: n in bufs ==> bufs[n].block == 0 || bufs[n].size >= capacity
    }

    /** The bytes of every buffer. */
    ghost function Contents(): map<Name, seq<Byte>>
      requires Valid()
      reads this
    {
      BufBytes(blocks, bufs)
    }

    /** The bytes of every block that clients own. */
    ghost function Taken(): map<Name, seq<Byte>>
      requires Valid()
      reads this
    {
      VarBytes(blocks, vars)
    }

    /** Memory nobody has written yet. */
    method Garbage(n: nat) returns (g: seq<Byte>)
      ensures |g| == n
    {
      assert |Zeros(n)| == n;
      g :| |g| == n;
    }

    method Malloc(contents: seq<Byte>) returns (b: BlockId)
      requires Fresh()
      modifies this`blocks, this`next
      ensures Fresh() && b == old(next) && b != 0 && b !in old(blocks) && blocks == old(blocks)[b := contents]
    {
      b := next;
      blocks := blocks[b := contents];
      next := next + 1;
    }

    /** A new block for a buffer that has none. */
    method PlaceBlock(n: Name, contents: seq<Byte>, inline: seq<Byte>)
      requires Valid() && (n in bufs ==> bufs[n].block == 0) && |inline| == capacity
      modifies this
      ensures Valid() && n in bufs && bufs[n].size == |contents| && vars == old(vars)
      ensures Contents() == old(Contents())[n := contents] && Taken() == old(Taken())
      ensures old(Roomy()) && |contents| >= capacity ==> Roomy()
    {
      ghost var r := View();
      var id := Malloc(contents);
      var b := Buf(id, |contents|, inline);
      SetFresh(capacity, r, n, b, contents);
      bufs := bufs[n := b];
      owner := owner[id := ByBuffer(n)];
    }

    /** A buffer that has no block becomes `b`, which has none either. */
    method SetInlineBuffer(n: Name, b: Buf)
      requires Valid() && (n in bufs ==> bufs[n].block == 0)
      requires b.block == 0 && |b.inline| == capacity && b.size <= capacity
      modifies this`bufs
      ensures Valid() && bufs == old(bufs)[n := b]
      ensures Contents() == old(Contents())[n := b.inline[..b.size]] && Taken() == old(Taken())
      ensures old(Roomy()) ==> Roomy()
    {
      SetInline(capacity, View(), n, b);
      bufs := bufs[n := b];
    }

    method DoEmpty(n: Name)
      requires Valid() && n !in bufs
      modifies this
      ensures Valid() && Contents() == old(Contents())[n := []] && Taken() == old(Taken())
      ensures old(Roomy()) ==> Roomy()
    {
      var g := Garbage(capacity);
      SetInlineBuffer(n, Buf(0, 0, g));
    }

    /** Both filling constructors: `data` is zeros, or what the caller passes. */
    method DoFrom(n: Name, data: seq<Byte>)
      requires Valid() && n !in bufs
      modifies this
      ensures Valid() && Contents() == old(Contents())[n := data] && Taken() == old(Taken())
      ensures old(Roomy()) ==> Roomy()
    {
      var g := Garbage(capacity);
      if |data| <= capacity {
        SetInlineBuffer(n, Buf(0, |data|, data + g[|data|..]));
      } else {
        PlaceBlock(n, data, g);
      }
    }

    method DoCopy(n: Name, src: Name)
      requires Valid() && n !in bufs && src in bufs
      modifies this
      ensures Valid() && Contents() == old(Contents())[n := old(Contents())[src]] && Taken() == old(Taken())
      ensures old(Roomy()) ==> Roomy()
    {
      var s := bufs[src];
      if s.block != 0 {
        var g := Garbage(capacity);
        PlaceBlock(n, blocks[s.block], g);
      } else {
        SetInlineBuffer(n, Buf(0, s.size, s.inline));
      }
    }

    /** The block of `src` becomes that of the new buffer. */
    method PassTo(n: Name, src: Name)
      requires Valid() && n !in bufs && src in bufs && bufs[src].block != 0
      modifies this`bufs, this`owner
      ensures Valid() && Contents() == old(Contents())[n := old(Contents())[src]][src := []] && Taken() == old(Taken())
      ensures old(Roomy()) ==> Roomy()
    {
      var s := bufs[src];
      var g := Garbage(capacity);
      PassBlock(capacity, View(), n, src, g);
      bufs := bufs[n := Buf(s.block, s.size, g)];
      bufs := bufs[src := Buf(0, 0, s.inline)];
      owner := owner[s.block := ByBuffer(n)];
    }

    method DoMove(n: Name, src: Name)
      requires Valid() && n !in bufs && src in bufs
      modifies this
      ensures Valid() && Contents() == old(Contents())[n := old(Contents())[src]][src := []] && Taken() == old(Taken())
      ensures old(Roomy()) ==> Roomy()
    {
      var s := bufs[src];
      if s.block != 0 {
        PassTo(n, src);
      } else {
        SetInlineBuffer(n, s);
        SetInlineBuffer(src, Buf(0, 0, s.inline));
      }
    }

    /** The block of a buffer goes back to the allocator, and the buffer becomes `b`, which has none. */
    method ReturnBlock(n: Name, b: Buf)
      requires Valid() && n in bufs && bufs[n].block != 0
      requires b.block == 0 && |b.inline| == capacity && b.size <= capacity
      modifies this`blocks, this`bufs, this`owner
      ensures Valid() && bufs == old(bufs)[n := b]
      ensures Contents() == old(Contents())[n := b.inline[..b.size]] && Taken() == old(Taken())
      ensures old(Roomy()) ==> Roomy()
    {
      var id := bufs[n].block;
      DropBlock(capacity, View(), n, b);
      blocks := blocks - {id};
      owner := owner - {id};
      bufs := bufs[n := b];
    }

    /** `MemFree(m_allocatedBuffer)`: the buffer is left without a block. */
    method FreeBlock(n: Name)
      requires Valid() && n in bufs
      modifies this
      ensures Valid() && n in bufs && bufs[n] == Buf(0, 0, old(bufs[n].inline)) && vars == old(vars)
      ensures Contents() == old(Contents())[n := []] && Taken() == old(Taken())
      ensures old(Roomy()) ==> Roomy()
    {
      var s := bufs[n];
      if s.block != 0 {
        ReturnBlock(n, Buf(0, 0, s.inline));
      } else {
        SetInlineBuffer(n, Buf(0, 0, s.inline));
      }
    }

    method DoDestroy(n: Name)
      requires Valid() && n in bufs
      modifies this
      ensures Valid() && Contents() == old(Contents()) - {n} && Taken() == old(Taken())
      ensures old(Roomy()) ==> Roomy()
    {
      FreeBlock(n);
      Forget(capacity, View(), n);
      bufs := bufs - {n};
    }

    method DoStore(n: Name, i: nat, v: Byte)
      requires Valid() && n in bufs && i < bufs[n].size
      modifies this
      ensures Valid() && Contents() == old(Contents())[n := old(Contents())[n][i := v]] && Taken() == old(Taken())
      ensures old(Roomy()) ==> Roomy()
    {
      var s := bufs[n];
      if s.block != 0 {
        SetBlock(capacity, View(), n, blocks[s.block][i := v]);
        blocks := blocks[s.block := blocks[s.block][i := v]];
      } else {
        assert s.inline[i := v][..s.size] == s.inline[..s.size][i := v];
        SetInlineBuffer(n, s.(inline := s.inline[i := v]));
      }
    }

    /** The common prefix survives the switch between inline and heap, both ways. */
    method DoRealloc(n: Name, bytes: nat)
      requires Valid() && n in bufs && InBounds(bufs[n], bytes)
      modifies this
      ensures Valid() && n in bufs && bufs[n].size == bytes && n in Contents() && vars == old(vars)
      ensures Contents() == old(Contents())[n := Contents()[n]] && Taken() == old(Taken())
      ensures Resizes(old(Contents())[n], Contents()[n], bytes)
      ensures old(Roomy()) ==> Roomy()
    {
      var s := bufs[n];
      if bytes > |s.inline| {
        var g := Garbage(bytes);
        if s.block == 0 {
          PlaceBlock(n, s.inline[..s.size] + g[s.size..], s.inline);
        } else {
          MoveBlock(n, bytes, g);
        }
      } else {
        MoveInside(n, bytes);
      }
    }

    /** The contents are kept inside from now on. */
    method MoveInside(n: Name, bytes: nat)
      requires Valid() && n in bufs && InBounds(bufs[n], bytes) && bytes <= |bufs[n].inline|
      modifies this
      ensures Valid() && n in bufs && bufs[n].size == bytes && n in Contents() && vars == old(vars)
      ensures Contents() == old(Contents())[n := Contents()[n]] && Taken() == old(Taken())
      ensures Resizes(old(Contents())[n], Contents()[n], bytes)
      ensures old(Roomy()) ==> Roomy()
    {
      var s := bufs[n];
      if s.block != 0 {
        ReturnBlock(n, Buf(0, bytes, blocks[s.block][..bytes] + s.inline[bytes..]));
      } else {
        SetInlineBuffer(n, Buf(0, bytes, s.inline));
      }
    }

    /** `MemRealloc`: a block of the new size with the common prefix, the old one returned. */
    method MoveBlock(n: Name, bytes: nat, g: seq<Byte>)
      requires Valid() && n in bufs && bufs[n].block != 0 && |g| == bytes
      modifies this
      ensures Valid() && n in bufs && bufs[n].size == bytes && n in Contents() && vars == old(vars)
      ensures Contents() == old(Contents())[n := Contents()[n]] && Taken() == old(Taken())
      ensures Resizes(old(Contents())[n], Contents()[n], bytes)
      ensures old(Roomy()) && bytes >= capacity ==> Roomy()
    {
      var s := bufs[n];
      var keep := if s.size < bytes then s.size else bytes;
      var contents := blocks[s.block][..keep] + g[keep..];
      ghost var was := Contents();
      assert Resizes(was[n], contents, bytes);
      FreeBlock(n);
      ghost var freed: map<Name, seq<Byte>> := Contents();
      assert freed[n := contents] == was[n := contents];
      PlaceBlock(n, contents, s.inline);
      assert Contents() == was[n := contents];
    }

    method DoSet(n: Name, data: seq<Byte>)
      requires Valid() && n in bufs && InBounds(bufs[n], |data|)
      modifies this
      ensures Valid() && Contents() == old(Contents())[n := data] && Taken() == old(Taken())
      ensures old(Roomy()) ==> Roomy()
    {
      ghost var was := Contents();
      DoRealloc(n, |data|);
      ghost var resized: map<Name, seq<Byte>> := Contents();
      assert resized == was[n := resized[n]] && resized[n := data] == was[n := data];
      Overwrite(n, data);
    }

    /** The final `memcpy` of `set`. */
    method Overwrite(n: Name, data: seq<Byte>)
      requires Valid() && n in bufs && bufs[n].size == |data|
      modifies this
      ensures Valid() && Contents() == old(Contents())[n := data] && Taken() == old(Taken())
      ensures old(Roomy()) ==> Roomy()
    {
      var s := bufs[n];
      if s.block != 0 {
        SetBlock(capacity, View(), n, data);
        blocks := blocks[s.block := data];
      } else {
        SetInlineBuffer(n, s.(inline := data + s.inline[|data|..]));
      }
    }

    method DoSetPreallocated(n: Name, x: Name)
      requires Valid() && n in bufs && x in vars
      modifies this
      ensures Valid() && x in old(Taken())
      ensures old(Roomy()) && |old(Taken())[x]| >= capacity ==> Roomy()
      ensures Contents() == old(Contents())[n := old(Taken())[x]] && Taken() == old(Taken()) - {x}
      ensures n in bufs && bufs[n].block != 0 && bufs[n].size == |old(Taken())[x]|
    {
      ghost var was, taken := Contents(), Taken();
      FreeBlock(n);
      ghost var freed: map<Name, seq<Byte>> := Contents();
      assert freed[n := taken[x]] == was[n := taken[x]];
      AdoptBlock(n, x);
    }

    method AdoptBlock(n: Name, x: Name)
      requires Valid() && n in bufs && bufs[n].block == 0 && x in vars
      modifies this
      ensures Valid() && x in old(Taken())
      ensures old(Roomy()) && |old(Taken())[x]| >= capacity ==> Roomy()
      ensures Contents() == old(Contents())[n := old(Taken())[x]] && Taken() == old(Taken()) - {x}
      ensures n in bufs && bufs[n].block != 0 && bufs[n].size == |old(Taken())[x]|
    {
      ClientToBlock(capacity, View(), n, x);
      bufs := bufs[n := Buf(vars[x], |blocks[vars[x]]|, bufs[n].inline)];
      owner := owner[vars[x] := ByBuffer(n)];
      vars := vars - {x};
    }

    method CopyToClient(x: Name, contents: seq<Byte>)
      requires Valid() && x !in vars
      modifies this`blocks, this`next, this`vars, this`owner
      ensures Valid() && Contents() == old(Contents()) && Taken() == old(Taken())[x := contents]
    {
      ghost var r := View();
      var id := Malloc(contents);
      FreshToClient(capacity, r, x, id, contents);
      vars := vars[x := id];
      owner := owner[id := ByClient(x)];
    }

    /** The buffer's block becomes the client's. */
    method HandBlock(x: Name, n: Name)
      requires Valid() && n in bufs && bufs[n].block != 0 && x !in vars
      modifies this`bufs, this`vars, this`owner
      ensures Valid() && n in old(Contents())
      ensures Contents() == old(Contents())[n := []] && Taken() == old(Taken())[x := old(Contents())[n]]
      ensures old(Roomy()) ==> Roomy()
    {
      var s := bufs[n];
      BlockToClient(capacity, View(), n, x);
      vars := vars[x := s.block];
      owner := owner[s.block := ByClient(x)];
      bufs := bufs[n := Buf(0, 0, s.inline)];
    }

    method DoTake(x: Name, n: Name)
      requires Valid() && n in bufs && x !in vars
      modifies this
      ensures Valid() && n in old(Contents())
      ensures Contents() == old(Contents())[n := []] && Taken() == old(Taken())[x := old(Contents())[n]]
      ensures old(Roomy()) ==> Roomy()
    {
      var s := bufs[n];
      if s.block != 0 {
        HandBlock(x, n);
      } else {
        CopyToClient(x, s.inline[..s.size]);
        SetInlineBuffer(n, Buf(0, 0, s.inline));
      }
    }
  }

  /** A new size, the same prefix, anything beyond it. */
  predicate Resizes(s: seq<Byte>, s': seq<Byte>, bytes: nat) {
    |s'| == bytes && forall i :: 0 <= i < |s| && i < bytes ==> s'[i] == s[i]
  }

  // ---------- Any sequence of operations ----------

  predicate RefinesAll(c: map<Name, seq<Byte>>, m: map<Name, Cells>) {
    c.Keys == m.Keys && forall n :: n in m ==> Refines(c[n], m[n])
  }

  /** Preallocated blocks are not shorter than the internal buffer. */
  predicate Fair(m: Model, capacity: nat, op: Op) {
    Applicable(m, op) && (op.SetPreallocated? ==> |m.vars[op.x]| >= capacity)
  }

  /** The plain sequences after a script; an operation that does not apply is skipped. */
  function RunMeaning(capacity: nat, ops: seq<Op>): Model {
    if ops == [] then Model(map[], map[])
    else
      var m := RunMeaning(capacity, ops[..|ops| - 1]);
      if Fair(m, capacity, ops[|ops| - 1]) then Meaning(m, ops[|ops| - 1]) else m
  }

  /** A script that grows no buffer. */
  ghost predicate NeverGrows(capacity: nat, ops: seq<Op>) {
    var n := |ops|;
    n == 0 || (NeverGrows(capacity, ops[..n - 1]) &&
               var m, op := RunMeaning(capacity, ops[..n - 1]), ops[n - 1];
               op.Realloc? && op.n in m.bufs ==> op.bytes <= |m.bufs[op.n]|)
  }

  /** After such a script every byte is known, so that a refinement has exactly these bytes. */
  lemma {:induction false} ScriptIsExact(capacity: nat, ops: seq<Op>)
    requires NeverGrows(capacity, ops)
    ensures AllKnown(RunMeaning(capacity, ops))
    decreases |ops|
  {
    if ops != [] {
      var n := |ops|;
      ScriptIsExact(capacity, ops[..n - 1]);
      if Fair(RunMeaning(capacity, ops[..n - 1]), capacity, ops[n - 1]) {
        KnownStays(RunMeaning(capacity, ops[..n - 1]), ops[n - 1]);
      }
    }
  }

  lemma CertainIsExact(s: seq<Byte>, c: Cells)
    requires Refines(s, c) && Certain(c)
    ensures c == Exactly(s)
  {
  }

  lemma RefinesResized(s: seq<Byte>, s': seq<Byte>, c: Cells, bytes: nat)
    requires Refines(s, c) && Resizes(s, s', bytes)
    ensures Refines(s', Resized(c, bytes))
  {
  }

  lemma RefinesExactly(s: seq<Byte>)
    ensures Refines(s, Exactly(s))
  {
  }

  lemma RefinesUpdate(c: map<Name, seq<Byte>>, m: map<Name, Cells>, n: Name, s: seq<Byte>, t: Cells)
    requires RefinesAll(c, m) && Refines(s, t)
    ensures RefinesAll(c[n := s], m[n := t])
  {
  }

  /** The heap holds the bytes of the model. */
  ghost predicate Holds(heap: BufferHeap, m: Model)
    reads heap
  {
    heap.Valid() && heap.Roomy() && RefinesAll(heap.Contents(), m.bufs) && RefinesAll(heap.Taken(), m.vars)
  }

  /** The constructors. */
  method DoMake(heap: BufferHeap, ghost m: Model, op: Op)
    requires Holds(heap, m) && Fair(m, heap.capacity, op)
    requires op.Empty? || op.Sized? || op.From? || op.Copy? || op.Move?
    modifies heap
    ensures Holds(heap, Meaning(m, op))
  {
    ghost var c := heap.Contents();
    match op {
      case Empty(n) =>
        heap.DoEmpty(n);
        RefinesUpdate(c, m.bufs, n, [], []);
      case Sized(n, bytes) =>
        heap.DoFrom(n, Zeros(bytes));
        RefinesExactly(Zeros(bytes));
        RefinesUpdate(c, m.bufs, n, Zeros(bytes), Exactly(Zeros(bytes)));
      case From(n, data) =>
        heap.DoFrom(n, data);
        RefinesExactly(data);
        RefinesUpdate(c, m.bufs, n, data, Exactly(data));
      case Copy(n, src) =>
        heap.DoCopy(n, src);
        RefinesUpdate(c, m.bufs, n, c[src], m.bufs[src]);
      case Move(n, src) =>
        heap.DoMove(n, src);
        RefinesUpdate(c, m.bufs, n, c[src], m.bufs[src]);
        RefinesUpdate(c[n := c[src]], m.bufs[n := m.bufs[src]], src, [], []);
    }
  }

  /** The operations that change the contents of one buffer. */
  method DoChange(heap: BufferHeap, ghost m: Model, op: Op)
    requires Holds(heap, m) && Fair(m, heap.capacity, op)
    requires op.Destroy? || op.Store? || op.Realloc? || op.Set?
    modifies heap
    ensures Holds(heap, Meaning(m, op))
  {
    ghost var c := heap.Contents();
    match op {
      case Destroy(n) =>
        heap.DoDestroy(n);
      case Store(n, i, v) =>
        heap.DoStore(n, i, v);
        RefinesUpdate(c, m.bufs, n, c[n][i := v], m.bufs[n][i := Known(v)]);
      case Realloc(n, bytes) =>
        heap.DoRealloc(n, bytes);
        RefinesResized(c[n], heap.Contents()[n], m.bufs[n], bytes);
        RefinesUpdate(c, m.bufs, n, heap.Contents()[n], Resized(m.bufs[n], bytes));
      case Set(n, data) =>
        heap.DoSet(n, data);
        RefinesExactly(data);
        RefinesUpdate(c, m.bufs, n, data, Exactly(data));
    }
  }

  /** Carry out one operation, keeping the heap a refinement of the model. */
  method Do(heap: BufferHeap, ghost m: Model, op: Op)
    requires Holds(heap, m) && Fair(m, heap.capacity, op)
    modifies heap
    ensures Holds(heap, Meaning(m, op))
  {
    ghost var c, t := heap.Contents(), heap.Taken();
    if op.SetPreallocated? {
      heap.DoSetPreallocated(op.n, op.x);
      RefinesUpdate(c, m.bufs, op.n, t[op.x], m.vars[op.x]);
    } else if op.Take? {
      heap.DoTake(op.x, op.n);
      RefinesUpdate(c, m.bufs, op.n, [], []);
      RefinesUpdate(t, m.vars, op.x, c[op.n], m.bufs[op.n]);
    } else if op.Destroy? || op.Store? || op.Realloc? || op.Set? {
      DoChange(heap, m, op);
    } else {
      DoMake(heap, m, op);
    }
  }

  /** Any script at all, from an empty heap: every buffer holds the plain sequence of the reference
      meaning, and every heap block has exactly one owner. */
  method Execute(capacity: nat, ops: seq<Op>) returns (heap: BufferHeap)
    ensures fresh(heap) && heap.Valid() && heap.capacity == capacity
    ensures RefinesAll(heap.Contents(), RunMeaning(capacity, ops).bufs)
    ensures RefinesAll(heap.Taken(), RunMeaning(capacity, ops).vars)
  {
    heap := new BufferHeap(capacity);
    var m := Model(map[], map[]);
    for i := 0 to |ops|
      invariant fresh(heap) && heap.capacity == capacity && Holds(heap, m)
      invariant m == RunMeaning(capacity, ops[..i])
    {
      assert ops[..i + 1][..i] == ops[..i];
      if Fair(m, capacity, ops[i]) {
        Do(heap, m, ops[i]);
        m := Meaning(m, ops[i]);
      }
    }
    assert ops[..|ops|] == ops;
  }

  /** What `Fair` leaves out can happen: a client takes a block shorter than the internal buffer from one
      buffer and gives it back as preallocated; growing to the internal size would then read past it. */
  method ShortBlock(capacity: nat) returns (heap: BufferHeap)
    requires capacity > 0
    ensures fresh(heap) && heap.Valid() && heap.capacity == capacity
    ensures 0 in heap.bufs && !InBounds(heap.bufs[0], capacity)
  {
    heap := new BufferHeap(capacity);
    heap.DoFrom(0, Zeros(capacity - 1));
    assert heap.Contents()[0] == Zeros(capacity - 1) && 0 in heap.bufs && 0 !in heap.Taken();
    heap.DoTake(0, 0);
    assert 0 in heap.Contents() && heap.Taken()[0] == Zeros(capacity - 1) && 0 in heap.vars;
    heap.DoSetPreallocated(0, 0);
  }
}
