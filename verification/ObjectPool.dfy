/** `ObjectMemoryPool` as an object over the memory it lives in, proved against `PoolModel`. */
module ObjectPool {
  import opened PoolModel

  class ObjectMemoryPool {
    var memory: Memory           // the words the allocator has handed to this pool
    var currentRegion: Address
    var firstDeleted: Address
    var headerSize: int
    var regionSize: int
    var elementSize: int
    var bumpOffset: int          // m_allocated
    var elements: int
    ghost var capacity: int
    ghost var shape: Shape

    ghost function Sizes(): Layout
      reads this
    {
      Layout(headerSize, elementSize, capacity, regionSize)
    }

    ghost function State(): Pool
      reads this
    {
      Pool(currentRegion, firstDeleted, bumpOffset, elements, memory)
    }

    ghost predicate Valid()
      reads this
    {
      Inv(Sizes(), State(), shape)
    }

    /** `base` and `contents` are the block the allocator returns. */
    constructor (pointerSize: int, objectSize: int, regionCapacity: int, base: Address, contents: Memory)
      requires 1 <= pointerSize && 1 <= objectSize && 1 <= regionCapacity
      requires base > 0 && base % WORD == 0
      requires contents.Keys == RegionWords(LayoutOf(pointerSize, objectSize, regionCapacity), base)
      ensures Sizes() == LayoutOf(pointerSize, objectSize, regionCapacity)
      ensures State() == Create(Sizes(), base, contents) && shape == Shape([base], [], {}, 0)
      ensures Valid()
    {
      var h := pointerSize;
      if h % 16 != 0 {
        h := h + (16 - h % 16);
      }
      var e := objectSize;
      if e % 8 != 0 {
        e := e + (8 - e % 8);
      }
      headerSize, elementSize, regionSize := h, e, h + regionCapacity * e;
      currentRegion := base;
      memory := contents[base := 0];
      firstDeleted := 0;
      bumpOffset := h;
      elements := 0;
      capacity, shape := regionCapacity, Shape([base], [], {}, 0);
      LayoutProper(pointerSize, objectSize, regionCapacity);
      CreateInv(LayoutOf(pointerSize, objectSize, regionCapacity), base, contents);
    }

    // The code of `allocate` and `free`, step by step.

    method AllocateCode(base: Address, contents: Memory) returns (p: Address)
      requires firstDeleted != 0 ==> firstDeleted in memory
      modifies this`firstDeleted, this`bumpOffset, this`memory, this`currentRegion, this`elements
      ensures State() == PoolModel.Allocate(old(Sizes()), old(State()), base, contents).0
      ensures p == PoolModel.Allocate(old(Sizes()), old(State()), base, contents).1
    {
      if firstDeleted != 0 {
        p := firstDeleted;
        firstDeleted := memory[p];
      } else if bumpOffset < regionSize {
        p := currentRegion + bumpOffset;
        bumpOffset := bumpOffset + elementSize;
      } else {
        memory := memory + contents;
        memory := memory[base := currentRegion];
        currentRegion := base;
        p := currentRegion + headerSize;
        bumpOffset := headerSize + elementSize;
      }
      elements := elements + 1;
    }

    method FreeCode(p: Address)
      modifies this`firstDeleted, this`memory, this`elements
      ensures State() == PoolModel.Free(old(State()), p)
    {
      if p != 0 {
        memory := memory[p := firstDeleted];
        firstDeleted := p;
        elements := elements - 1;
      }
    }

    // What they guarantee.

    method Allocate(base: Address, contents: Memory) returns (p: Address)
      requires Valid() && (NeedsRegion(Sizes(), State()) ==> FreshRegion(Sizes(), shape, base, contents))
      modifies this
      ensures Valid() && Sizes() == old(Sizes())
      ensures State() == PoolModel.Allocate(Sizes(), old(State()), base, contents).0
      ensures shape == AllocateShape(Sizes(), old(State()), old(shape), base)
      ensures HandsOut(p, old(shape), shape)
    {
      ghost var l, pool, g := Sizes(), State(), shape;
      ghost var pool', g' := PoolModel.Allocate(l, pool, base, contents).0, AllocateShape(l, pool, g, base);
      AllocateInv(l, pool, g, base, contents);
      FirstIsWord(pool, g);
      p := AllocateCode(base, contents);
      assert State() == pool' && Sizes() == l;
      shape := g';
      assert State() == pool' && Sizes() == l;
    }

    method Free(p: Address)
      requires Valid() && (p == 0 || p in shape.live)
      modifies this
      ensures Valid() && Sizes() == old(Sizes())
      ensures State() == PoolModel.Free(old(State()), p) && shape == FreeShape(old(shape), p)
    {
      ghost var l, pool', g' := Sizes(), PoolModel.Free(State(), p), FreeShape(shape, p);
      FreeInv(l, State(), shape, p);
      FreeCode(p);
      assert State() == pool' && Sizes() == l;
      shape := g';
      assert State() == pool' && Sizes() == l;
    }

    method GetRegionCount() returns (count: nat)
      requires Valid()
      ensures count == |shape.regions|
    {
      count := 0;
      var r := currentRegion;
      while r != 0
        invariant count <= |shape.regions| && Chain(memory, r, shape.regions[count..])
        decreases |shape.regions| - count
      {
        assert shape.regions[count..][1..] == shape.regions[count + 1..];
        count := count + 1;
        r := memory[r];
      }
    }

    /** Return the block at `r` to the allocator. */
    method MemFree(r: Address)
      requires RegionWords(Sizes(), r) <= memory.Keys
      modifies this`memory
      ensures memory == old(memory) - RegionWords(Sizes(), r)
    {
      memory := memory - (set a | r <= a < r + regionSize && a % WORD == 0);
    }

    /** The loop of `reset` and of the destructor: free a chain of regions, leaving `kept` alone. */
    method FreeChain(head: Address, ghost kept: seq<Address>, ghost chain: seq<Address>)
      requires Proper(Sizes()) && Spread(Sizes(), kept + chain)
      requires Owns(Sizes(), memory.Keys, kept + chain) && Chain(memory, head, chain)
      modifies this`memory
      ensures Owns(Sizes(), memory.Keys, kept)
      ensures forall a :: a in memory ==> a in old(memory) && memory[a] == old(memory)[a]
    {
      ghost var l, k := Sizes(), 0;
      var r := head;
      assert chain[0..] == chain;
      while r != 0
        invariant Sizes() == l && 0 <= k <= |chain| && Chain(memory, r, chain[k..])
        invariant Owns(l, memory.Keys, kept + chain[k..])
        invariant forall a :: a in memory ==> a in old(memory) && memory[a] == old(memory)[a]
        decreases |chain| - k
      {
        assert chain[k..][1..] == chain[k + 1..];
        var n := memory[r];
        ReleaseOwns(l, memory.Keys, kept, chain, k);
        ReleaseChain(l, memory, kept, chain, k, n);
        MemFree(r);
        r := n;
        k := k + 1;
      }
      assert kept + chain[k..] == kept;
    }

    /** Of the memory only the words of region `r` are left. */
    method KeepOne(head: Address, r: Address, ghost older: seq<Address>)
      requires Proper(Sizes()) && Spread(Sizes(), [r] + older)
      requires Owns(Sizes(), memory.Keys, [r] + older) && Chain(memory, head, older)
      modifies this`memory
      ensures memory == Restrict(old(memory), RegionWords(Sizes(), r))
    {
      ghost var was := memory;
      FreeChain(head, [r], older);
      OneRegion(Sizes(), memory.Keys, r);
      RestOfMemory(was, memory, RegionWords(Sizes(), r));
    }

    /** Nothing of the memory is left. */
    method KeepNone(head: Address, ghost chain: seq<Address>)
      requires Proper(Sizes()) && Spread(Sizes(), chain) && Owns(Sizes(), memory.Keys, chain) && Chain(memory, head, chain)
      modifies this`memory
      ensures memory == map[]
    {
      ghost var none: seq<Address> := [];
      assert none + chain == chain;
      FreeChain(head, none, chain);
      NoRegion(Sizes(), memory);
    }

    /** `reset`, given the older regions chained behind the current one. */
    method ResetCode(ghost older: seq<Address>)
      requires Proper(Sizes()) && Spread(Sizes(), [currentRegion] + older) && currentRegion in memory
      requires Owns(Sizes(), memory.Keys, [currentRegion] + older) && Chain(memory, memory[currentRegion], older)
      modifies this`firstDeleted, this`bumpOffset, this`memory
      ensures State() == PoolModel.Reset(Sizes(), old(State()))
    {
      KeepOne(memory[currentRegion], currentRegion, older);
      memory := memory[currentRegion := 0];
      bumpOffset := headerSize;
      firstDeleted := 0;
    }

    method Reset()
      requires Valid()
      modifies this
      ensures Valid() && Sizes() == old(Sizes())
      ensures State() == PoolModel.Reset(Sizes(), old(State())) && shape == Shape([currentRegion], [], {}, 0)
    {
      ResetInv(Sizes(), State(), shape);
      ghost var after := Shape([currentRegion], [], {}, 0);
      assert shape.regions == [currentRegion] + shape.regions[1..];
      ResetCode(shape.regions[1..]);
      shape := after;
    }

    /** The destructor returns every region, and returns it once. */
    method Destroy()
      requires Valid()
      modifies this`memory
      ensures memory == map[]
    {
      KeepNone(currentRegion, shape.regions);
    }
  }

  lemma ReleaseOwns(l: Layout, keys: set<Address>, kept: seq<Address>, chain: seq<Address>, k: int)
    requires Proper(l) && Spread(l, kept + chain) && 0 <= k < |chain|
    requires Owns(l, keys, kept + chain[k..])
    ensures RegionWords(l, chain[k]) <= keys
    ensures Owns(l, keys - RegionWords(l, chain[k]), kept + chain[k + 1..])
  {
    var r := chain[k];
    assert (kept + chain[k..])[|kept|] == r;
    assert chain[k..] == [r] + chain[k + 1..];
    forall q | q in kept + chain[k + 1..]
      ensures RegionWords(l, q) <= keys - RegionWords(l, r)
    {
      OthersApart(l, kept, chain, k, q);
      assert q in kept + chain[k..];
    }
    forall a | a in keys - RegionWords(l, r)
      ensures exists q :: q in kept + chain[k + 1..] && a in RegionWords(l, q)
    {
      var q :| q in kept + chain[k..] && a in RegionWords(l, q);
      assert q in kept + chain[k + 1..];
    }
  }

  /** The regions still chained or kept are apart from the one being freed. */
  lemma OthersApart(l: Layout, kept: seq<Address>, chain: seq<Address>, k: int, q: Address)
    requires Spread(l, kept + chain) && 0 <= k < |chain| && q in kept + chain[k + 1..]
    ensures Apart(q, l.region, chain[k], l.region)
  {
    var all := kept + chain;
    assert all[|kept| + k] == chain[k];
    if q in kept {
      var i :| 0 <= i < |kept| && kept[i] == q;
      assert all[i] == q;
    } else {
      var i :| 0 <= i < |chain[k + 1..]| && chain[k + 1..][i] == q;
      assert all[|kept| + k + 1 + i] == q;
    }
  }

  lemma ReleaseChain(l: Layout, mem: Memory, kept: seq<Address>, chain: seq<Address>, k: int, n: Address)
    requires Proper(l) && Spread(l, kept + chain) && 0 <= k < |chain|
    requires Chain(mem, n, chain[k + 1..])
    ensures Chain(mem - RegionWords(l, chain[k]), n, chain[k + 1..])
  {
    ChainLinks(mem, n, chain[k + 1..]);
    forall q | q in chain[k + 1..] ensures q !in RegionWords(l, chain[k]) {
      OthersApart(l, kept, chain, k, q);
    }
    ChainFrame(mem, mem - RegionWords(l, chain[k]), n, chain[k + 1..]);
  }

  lemma FirstIsWord(p: Pool, g: Shape)
    requires FreeOk(p, g)
    ensures p.first != 0 ==> p.first in p.mem
  {
  }

  lemma RestOfMemory(mem: Memory, mem': Memory, words: set<Address>)
    requires mem'.Keys == words && forall a :: a in mem' ==> a in mem && mem'[a] == mem[a]
    ensures mem' == Restrict(mem, words)
  {
    var rest := Restrict(mem, words);
    forall a ensures a in rest <==> a in mem' {
      assert a in mem' <==> a in words;
      assert a in mem' ==> a in mem;
    }
    assert forall a :: a in mem' ==> rest[a] == mem'[a];
  }

  lemma NoRegion(l: Layout, mem: Memory)
    requires Owns(l, mem.Keys, [])
    ensures mem == map[]
  {
    assert forall a :: a !in mem.Keys;
  }

  lemma OneRegion(l: Layout, keys: set<Address>, r: Address)
    requires Owns(l, keys, [r])
    ensures keys == RegionWords(l, r)
  {
    assert r in [r];
  }
}
