/** The object memory pool as a value: chained regions, bump allocation, and a free list whose links are
    stored in the freed slots themselves.

    Memory is a map from the address of an aligned eight-byte word to its contents; the null pointer is
    zero.  Every pointer the pool stores lies in such a word, and a client that writes bytes inside its
    object changes words of that object only. */
module PoolModel {

  type Address = int
  type Memory = map<Address, int>

  const WORD := 8

  /** Sizes the constructor fixes. */
  datatype Layout = Layout(header: int, element: int, capacity: int, region: int)

  /** The header holds the link to the previous region, rounded up to 16 bytes. */
  function HeaderSize(pointerSize: int): (r: int)
    ensures pointerSize <= r < pointerSize + 16 && r % 16 == 0
  {
    if pointerSize % 16 != 0 then pointerSize + (16 - pointerSize % 16) else pointerSize
  }

  /** Elements are rounded up to 8 bytes. */
  function ElementSize(objectSize: int): (r: int)
    ensures objectSize <= r < objectSize + 8 && r % 8 == 0
  {
    if objectSize % 8 != 0 then objectSize + (8 - objectSize % 8) else objectSize
  }

  /** The sizes for a pointer size, `sizeof(T)` and a region capacity. */
  function LayoutOf(pointerSize: int, objectSize: int, capacity: int): Layout {
    var header, element := HeaderSize(pointerSize), ElementSize(objectSize);
    Layout(header, element, capacity, header + capacity * element)
  }

  predicate Proper(l: Layout) {
    && l.header >= WORD && l.header % WORD == 0
    && l.element >= WORD && l.element % WORD == 0
    && l.capacity >= 1
    && l.region >= l.header + l.element
  }

  /** `n * c` for natural `n`, unfolded one summand at a time. */
  function Times(n: int, c: int): int
    decreases n
  {
    if n <= 0 then 0 else c + Times(n - 1, c)
  }

  lemma {:induction false} TimesIsProduct(n: int, c: int)
    requires n >= 0
    ensures Times(n, c) == n * c
    decreases n
  {
    if n > 0 {
      TimesIsProduct(n - 1, c);
      assert n * c == (n - 1) * c + c;
    }
  }

  lemma {:induction false} TimesGrows(m: int, n: int, c: int)
    requires 0 <= m <= n && c >= 0
    ensures 0 <= Times(m, c) <= Times(n, c)
    ensures m < n ==> Times(m, c) + c <= Times(n, c)
    decreases n
  {
    if m == n {
      if n > 0 { TimesGrows(m - 1, n - 1, c); }
    } else {
      TimesGrows(m, n - 1, c);
    }
  }

  lemma {:induction false} TimesAligned(n: int, c: int)
    requires c % WORD == 0
    ensures Times(n, c) % WORD == 0
    decreases n
  {
    if n > 0 {
      TimesAligned(n - 1, c);
      SumAligned(Times(n - 1, c), c);
    }
  }

  lemma SumAligned(a: int, b: int)
    requires a % WORD == 0 && b % WORD == 0
    ensures (a + b) % WORD == 0
  {
  }

  predicate Sized(l: Layout) { l.region == l.header + Times(l.capacity, l.element) }

  lemma LayoutProper(pointerSize: int, objectSize: int, capacity: int)
    requires 1 <= pointerSize && 1 <= objectSize && 1 <= capacity
    ensures Proper(LayoutOf(pointerSize, objectSize, capacity)) && Sized(LayoutOf(pointerSize, objectSize, capacity))
  {
    var element := ElementSize(objectSize);
    TimesIsProduct(capacity, element);
    TimesGrows(1, capacity, element);
    assert Times(1, element) == element;
  }

  /** The fields of the pool, and the memory it lives in. */
  datatype Pool = Pool(current: Address, first: Address, bump: int, elements: int, mem: Memory)

  function RegionWords(l: Layout, base: Address): set<Address> {
    set a | base <= a < base + l.region && a % WORD == 0
  }

  // ---------- The operations ----------

  /** A fresh region at `base`, linked to nothing. */
  function Create(l: Layout, base: Address, contents: Memory): Pool {
    Pool(base, 0, l.header, 0, contents[base := 0])
  }

  /** A load; the invariant below rules out the second case. */
  function Load(mem: Memory, a: Address): int { if a in mem then mem[a] else 0 }

  /** `allocate`; `base` and `contents` are what the allocator hands out if a region is needed. */
  function Allocate(l: Layout, p: Pool, base: Address, contents: Memory): (Pool, Address) {
    if p.first != 0 then
      (p.(first := Load(p.mem, p.first), elements := p.elements + 1), p.first)
    else if p.bump < l.region then
      (p.(bump := p.bump + l.element, elements := p.elements + 1), p.current + p.bump)
    else
      (Pool(base, 0, l.header + l.element, p.elements + 1, (p.mem + contents)[base := p.current]), base + l.header)
  }

  function Free(p: Pool, q: Address): Pool {
    if q == 0 then p else p.(mem := p.mem[q := p.first], first := q, elements := p.elements - 1)
  }

  /** A client stores a word somewhere. */
  function Write(p: Pool, a: Address, v: int): Pool { p.(mem := p.mem[a := v]) }

  function Restrict(mem: Memory, words: set<Address>): Memory { map a | a in mem && a in words :: mem[a] }

  /** `reset`: every region but the current one is returned, the element count stays as it is. */
  function Reset(l: Layout, p: Pool): Pool {
    Pool(p.current, 0, l.header, p.elements, Restrict(p.mem, RegionWords(l, p.current))[p.current := 0])
  }

  // ---------- The abstract view ----------

  /** Regions, newest first; free slots, most recently freed first; slots handed out; slots bumped off
      the current region so far. */
  datatype Shape = Shape(regions: seq<Address>, free: seq<Address>, live: set<Address>, used: int)

  /** A linked list through memory: each node's first word points to the next, the last to null. */
  ghost predicate Chain(mem: Memory, head: Address, nodes: seq<Address>)
    decreases |nodes|
  {
    if nodes == [] then head == 0
    else head == nodes[0] && head != 0 && head in mem && Chain(mem, mem[head], nodes[1..])
  }

  lemma {:induction false} ChainFrame(mem: Memory, mem': Memory, head: Address, nodes: seq<Address>)
    requires Chain(mem, head, nodes)
    requires forall a :: a in nodes ==> a in mem' && (a in mem ==> mem'[a] == mem[a])
    ensures Chain(mem', head, nodes)
    decreases |nodes|
  {
    if nodes != [] {
      assert nodes[0] in nodes;
      ChainFrame(mem, mem', mem[head], nodes[1..]);
    }
  }

  ghost function Slots(g: Shape): set<Address> { g.live + (set q | q in g.free) }

  predicate Apart(a: Address, n: int, b: Address, m: int) { a + n <= b || b + m <= a }

  predicate InRegion(l: Layout, r: Address, q: Address) {
    r + l.header <= q && q + l.element <= r + l.region && q % WORD == 0
  }

  /** The pool's memory is exactly its regions. */
  ghost predicate Owns(l: Layout, keys: set<Address>, regions: seq<Address>) {
    && (forall r :: r in regions ==> RegionWords(l, r) <= keys)
    && (forall a :: a in keys ==> exists r :: r in regions && a in RegionWords(l, r))
  }

  /** The regions are aligned and disjoint. */
  ghost predicate Spread(l: Layout, regions: seq<Address>) {
    && (forall r :: r in regions ==> r > 0 && r % WORD == 0)
    && (forall i, j :: 0 <= i < j < |regions| ==> Apart(regions[i], l.region, regions[j], l.region))
  }

  ghost predicate RegionsOk(l: Layout, p: Pool, g: Shape) {
    && g.regions != [] && Chain(p.mem, p.current, g.regions)
    && Spread(l, g.regions) && Owns(l, p.mem.Keys, g.regions)
  }

  /** Every slot lies past the header of one region, and below the bump pointer in the current one. */
  ghost predicate Placed(l: Layout, p: Pool, g: Shape, q: Address) {
    exists r :: r in g.regions && InRegion(l, r, q) && (r == p.current ==> q + l.element <= p.current + p.bump)
  }

  ghost predicate SlotsOk(l: Layout, p: Pool, g: Shape) {
    && (forall q :: q in Slots(g) ==> Placed(l, p, g, q))
    && (forall q, r :: q in Slots(g) && r in Slots(g) && q != r ==> Apart(q, l.element, r, l.element))
  }

  /** The free list is acyclic, without repetition, and apart from the live slots. */
  ghost predicate FreeOk(p: Pool, g: Shape) {
    && Chain(p.mem, p.first, g.free)
    && (forall i, j :: 0 <= i < j < |g.free| ==> g.free[i] != g.free[j])
    && (forall q :: q in g.free ==> q !in g.live)
  }

  ghost predicate BumpOk(l: Layout, p: Pool, g: Shape) {
    0 <= g.used <= l.capacity && p.bump == l.header + Times(g.used, l.element)
  }

  /** Every slot of every region is live, free or not yet bumped. */
  ghost predicate CountOk(l: Layout, g: Shape) {
    Times(|g.regions|, l.capacity) == |g.live| + |g.free| + (l.capacity - g.used)
  }

  ghost predicate Inv(l: Layout, p: Pool, g: Shape) {
    Proper(l) && Sized(l) && RegionsOk(l, p, g) && SlotsOk(l, p, g) && FreeOk(p, g) && BumpOk(l, p, g) && CountOk(l, g)
  }

  /** `allocate` has to take a new region. */
  predicate NeedsRegion(l: Layout, p: Pool) { p.first == 0 && !(p.bump < l.region) }

  /** What the allocator promises: an aligned block of a region's size, apart from all others. */
  ghost predicate FreshRegion(l: Layout, g: Shape, base: Address, contents: Memory) {
    && base > 0 && base % WORD == 0 && contents.Keys == RegionWords(l, base)
    && forall r :: r in g.regions ==> Apart(base, l.region, r, l.region)
  }

  ghost function AllocateShape(l: Layout, p: Pool, g: Shape, base: Address): Shape {
    if g.free != [] then Shape(g.regions, g.free[1..], g.live + {g.free[0]}, g.used)
    else if p.bump < l.region then Shape(g.regions, [], g.live + {p.current + p.bump}, g.used + 1)
    else Shape([base] + g.regions, [], g.live + {base + l.header}, 1)
  }

  ghost function FreeShape(g: Shape, q: Address): Shape {
    if q == 0 then g else Shape(g.regions, [q] + g.free, g.live - {q}, g.used)
  }

  // ---------- Every operation keeps the invariant ----------

  lemma CreateInv(l: Layout, base: Address, contents: Memory)
    requires Proper(l) && Sized(l) && base > 0 && base % WORD == 0 && contents.Keys == RegionWords(l, base)
    ensures Inv(l, Create(l, base, contents), Shape([base], [], {}, 0))
  {
    var p := Create(l, base, contents);
    assert base in RegionWords(l, base);
  }

  /** The bump pointer stops exactly at the end of the region. */
  lemma BumpRoom(l: Layout, used: int)
    requires Proper(l) && Sized(l) && 0 <= used <= l.capacity
    ensures l.header + Times(used, l.element) < l.region <==> used < l.capacity
    ensures used < l.capacity ==> l.header + Times(used, l.element) + l.element <= l.region
    ensures Times(used, l.element) >= 0 && Times(used, l.element) % WORD == 0
  {
    TimesGrows(used, l.capacity, l.element);
    TimesAligned(used, l.element);
  }

  /** What allocating from the bump pointer needs to know. */
  ghost predicate RoomInRegion(l: Layout, p: Pool) {
    0 <= p.bump && p.bump + l.element <= l.region && p.bump % WORD == 0 && p.bump >= l.header
  }

  /** Slots stay where they are when the regions do. */
  lemma SlotsStay(l: Layout, p: Pool, p': Pool, g: Shape, g': Shape)
    requires SlotsOk(l, p, g) && Slots(g') == Slots(g) && g'.regions == g.regions
    requires p'.current == p.current && p'.bump == p.bump
    ensures SlotsOk(l, p', g')
  {
    forall q | q in Slots(g') ensures Placed(l, p', g', q) {
      assert Placed(l, p, g, q);
    }
  }

  lemma PopFree(p: Pool, p': Pool, g: Shape, g': Shape)
    requires FreeOk(p, g) && g.free != [] && p'.mem == p.mem && p'.first == p.mem[p.first]
    requires g'.free == g.free[1..] && g'.live == g.live + {g.free[0]}
    ensures FreeOk(p', g') && Slots(g') == Slots(g)
  {
    assert g.free == [g.free[0]] + g.free[1..];
    assert forall i :: 0 <= i < |g'.free| ==> g'.free[i] == g.free[i + 1];
  }

  /** A slot that was not live becomes the only new live one. */
  ghost predicate HandsOut(q: Address, g: Shape, g': Shape) { q != 0 && q !in g.live && g'.live == g.live + {q} }

  lemma PopInv(l: Layout, p: Pool, g: Shape, base: Address, contents: Memory)
    requires Inv(l, p, g) && g.free != []
    ensures Inv(l, Allocate(l, p, base, contents).0, AllocateShape(l, p, g, base))
    ensures HandsOut(Allocate(l, p, base, contents).1, g, AllocateShape(l, p, g, base))
  {
    var p', g' := Allocate(l, p, base, contents).0, AllocateShape(l, p, g, base);
    PopFree(p, p', g, g');
    SlotsStay(l, p, p', g, g');
    assert g.free[0] !in g.live;
  }

  /** A stretch of the current region past the bump pointer meets no slot. */
  lemma PlacedApart(l: Layout, p: Pool, g: Shape, r: Address, q: Address)
    requires Proper(l) && RegionsOk(l, p, g) && Placed(l, p, g, r)
    requires p.current + p.bump <= q && q + l.element <= p.current + l.region
    requires p.bump >= 0
    ensures Apart(q, l.element, r, l.element)
  {
    var home :| home in g.regions && InRegion(l, home, r) && (home == p.current ==> r + l.element <= p.current + p.bump);
    if home != p.current {
      var i :| 0 <= i < |g.regions| && g.regions[i] == home;
      assert Apart(g.regions[0], l.region, g.regions[i], l.region);
    }
  }

  lemma BumpSlots(l: Layout, p: Pool, p': Pool, g: Shape, g': Shape)
    requires Proper(l) && RegionsOk(l, p, g) && SlotsOk(l, p, g) && RoomInRegion(l, p)
    requires p'.current == p.current && p'.bump == p.bump + l.element
    requires g'.regions == g.regions && Slots(g') == Slots(g) + {p.current + p.bump}
    ensures SlotsOk(l, p', g') && p.current + p.bump !in Slots(g) && p.current + p.bump != 0
  {
    var q := p.current + p.bump;
    assert p.current in g.regions;
    assert InRegion(l, p.current, q);
    assert Placed(l, p', g', q);
    forall r | r in Slots(g) ensures Placed(l, p', g', r) && Apart(q, l.element, r, l.element) {
      assert Placed(l, p, g, r);
      PlacedApart(l, p, g, r, q);
    }
  }

  lemma BumpRest(l: Layout, p: Pool, p': Pool, g: Shape, g': Shape, q: Address)
    requires Inv(l, p, g) && g.free == [] && g.used < l.capacity && q !in g.live
    requires p' == p.(bump := p.bump + l.element, elements := p.elements + 1)
    requires g' == Shape(g.regions, [], g.live + {q}, g.used + 1)
    ensures RegionsOk(l, p', g') && FreeOk(p', g') && BumpOk(l, p', g') && CountOk(l, g')
  {
  }

  lemma SlotsGain(g: Shape, g': Shape, q: Address)
    requires g'.free == g.free && g'.live == g.live + {q}
    ensures Slots(g') == Slots(g) + {q} && (q !in Slots(g) ==> q !in g.live)
  {
  }

  lemma BumpIs(l: Layout, p: Pool, g: Shape, base: Address, contents: Memory)
    requires Chain(p.mem, p.first, g.free) && g.free == [] && p.bump < l.region
    ensures Allocate(l, p, base, contents)
            == (p.(bump := p.bump + l.element, elements := p.elements + 1), p.current + p.bump)
    ensures AllocateShape(l, p, g, base) == Shape(g.regions, [], g.live + {p.current + p.bump}, g.used + 1)
  {
  }

  lemma BumpInv(l: Layout, p: Pool, g: Shape, base: Address, contents: Memory)
    requires Inv(l, p, g) && g.free == [] && p.bump < l.region
    ensures Inv(l, Allocate(l, p, base, contents).0, AllocateShape(l, p, g, base))
    ensures HandsOut(Allocate(l, p, base, contents).1, g, AllocateShape(l, p, g, base))
  {
    var q := p.current + p.bump;
    var p' := p.(bump := p.bump + l.element, elements := p.elements + 1);
    var g' := Shape(g.regions, [], g.live + {q}, g.used + 1);
    BumpIs(l, p, g, base, contents);
    BumpRoom(l, g.used);
    SlotsGain(g, g', q);
    BumpSlots(l, p, p', g, g');
    BumpRest(l, p, p', g, g', q);
  }

  // A new region in front of the others.

  lemma GrowOwns(l: Layout, keys: set<Address>, regions: seq<Address>, base: Address)
    requires Owns(l, keys, regions)
    ensures Owns(l, keys + RegionWords(l, base), [base] + regions)
  {
    forall a | a in keys + RegionWords(l, base) ensures exists r :: r in [base] + regions && a in RegionWords(l, r) {
      if a in keys {
        var r :| r in regions && a in RegionWords(l, r);
        assert r in [base] + regions;
      } else {
        assert base in [base] + regions;
      }
    }
  }

  lemma GrowSpread(l: Layout, g: Shape, base: Address, contents: Memory)
    requires Spread(l, g.regions) && FreshRegion(l, g, base, contents)
    ensures Spread(l, [base] + g.regions)
  {
    var regions := [base] + g.regions;
    forall i, j | 0 <= i < j < |regions| ensures Apart(regions[i], l.region, regions[j], l.region) {
      assert regions[j] == g.regions[j - 1];
      if i > 0 { assert regions[i] == g.regions[i - 1]; }
    }
  }

  lemma GrowRegions(l: Layout, p: Pool, p': Pool, g: Shape, g': Shape, base: Address, contents: Memory)
    requires Proper(l) && RegionsOk(l, p, g) && FreshRegion(l, g, base, contents)
    requires p'.current == base && p'.mem == (p.mem + contents)[base := p.current] && g'.regions == [base] + g.regions
    ensures RegionsOk(l, p', g')
  {
    GrowChain(l, p, g, base, contents);
    assert base in RegionWords(l, base);
    assert p'.mem.Keys == p.mem.Keys + RegionWords(l, base);
    GrowOwns(l, p.mem.Keys, g.regions, base);
    GrowSpread(l, g, base, contents);
  }

  lemma FreshMisses(l: Layout, g: Shape, base: Address, contents: Memory, r: Address)
    requires Proper(l) && FreshRegion(l, g, base, contents) && r in g.regions
    ensures r !in contents && r != base
  {
    assert Apart(base, l.region, r, l.region);
  }

  lemma GrowLinks(l: Layout, p: Pool, g: Shape, base: Address, contents: Memory)
    requires Proper(l) && Chain(p.mem, p.current, g.regions) && FreshRegion(l, g, base, contents)
    ensures var mem := (p.mem + contents)[base := p.current];
            forall r :: r in g.regions ==> r in p.mem && r in mem && mem[r] == p.mem[r]
  {
    ChainLinks(p.mem, p.current, g.regions);
    forall r | r in g.regions ensures r !in contents && r != base {
      FreshMisses(l, g, base, contents, r);
    }
  }

  lemma GrowChain(l: Layout, p: Pool, g: Shape, base: Address, contents: Memory)
    requires Proper(l) && RegionsOk(l, p, g) && FreshRegion(l, g, base, contents)
    ensures Chain((p.mem + contents)[base := p.current], base, [base] + g.regions)
  {
    var mem := (p.mem + contents)[base := p.current];
    GrowLinks(l, p, g, base, contents);
    ChainFrame(p.mem, mem, p.current, g.regions);
    assert ([base] + g.regions)[1..] == g.regions;
  }

  lemma GrowSlots(l: Layout, p: Pool, p': Pool, g: Shape, g': Shape, base: Address, contents: Memory)
    requires Proper(l) && RegionsOk(l, p, g) && SlotsOk(l, p, g) && FreshRegion(l, g, base, contents)
    requires p'.current == base && p'.bump == l.header + l.element
    requires g'.regions == [base] + g.regions && Slots(g') == Slots(g) + {base + l.header}
    ensures SlotsOk(l, p', g') && base + l.header !in Slots(g)
  {
    var q := base + l.header;
    assert base in g'.regions && InRegion(l, base, q);
    assert Placed(l, p', g', q);
    forall r | r in Slots(g) ensures Placed(l, p', g', r) && Apart(q, l.element, r, l.element) {
      assert Placed(l, p, g, r);
      var home :| home in g.regions && InRegion(l, home, r);
      assert home in g'.regions && Apart(base, l.region, home, l.region);
    }
  }

  lemma GrowInv(l: Layout, p: Pool, g: Shape, base: Address, contents: Memory)
    requires Inv(l, p, g) && g.free == [] && p.bump >= l.region && FreshRegion(l, g, base, contents)
    ensures Inv(l, Allocate(l, p, base, contents).0, AllocateShape(l, p, g, base))
    ensures HandsOut(Allocate(l, p, base, contents).1, g, AllocateShape(l, p, g, base))
  {
    var p', g' := Allocate(l, p, base, contents).0, AllocateShape(l, p, g, base);
    BumpRoom(l, g.used);
    assert Slots(g') == Slots(g) + {base + l.header};
    GrowRegions(l, p, p', g, g', base, contents);
    GrowSlots(l, p, p', g, g', base, contents);
    GrowCount(l, g, g');
  }

  lemma GrowCount(l: Layout, g: Shape, g': Shape)
    requires CountOk(l, g) && g.used == l.capacity
    requires |g'.regions| == |g.regions| + 1 && g'.used == 1
    requires |g'.live| == |g.live| + 1 && |g'.free| == |g.free|
    ensures CountOk(l, g')
  {
  }

  // Writes that hit neither a region header nor a link of the free list.

  /** A slot's words lie in the pool's memory, past every region header, and are shared with no other slot. */
  lemma SlotWord(l: Layout, p: Pool, g: Shape, q: Address, a: Address)
    requires Proper(l) && RegionsOk(l, p, g) && SlotsOk(l, p, g) && q in Slots(g)
    requires q <= a < q + l.element && a % WORD == 0
    ensures a in p.mem && a !in g.regions && a > 0
    ensures forall r :: r in Slots(g) && r != q ==> a != r
  {
    assert Placed(l, p, g, q);
    var home :| home in g.regions && InRegion(l, home, q);
    assert a in RegionWords(l, home);
    forall r | r in g.regions ensures a != r {
      if r != home {
        var i :| 0 <= i < |g.regions| && g.regions[i] == home;
        var j :| 0 <= j < |g.regions| && g.regions[j] == r;
        if i < j { assert Apart(g.regions[i], l.region, g.regions[j], l.region); }
        else { assert Apart(g.regions[j], l.region, g.regions[i], l.region); }
      }
    }
    forall r | r in Slots(g) && r != q ensures a != r {
      assert Apart(q, l.element, r, l.element);
    }
  }

  lemma WriteRegions(l: Layout, p: Pool, p': Pool, g: Shape, g': Shape, a: Address, v: int)
    requires RegionsOk(l, p, g) && a in p.mem && a !in g.regions && Proper(l)
    requires p'.mem == p.mem[a := v] && p'.current == p.current && g'.regions == g.regions
    ensures RegionsOk(l, p', g')
  {
    assert p'.mem.Keys == p.mem.Keys;
    ChainLinks(p.mem, p.current, g.regions);
    ChainFrame(p.mem, p'.mem, p.current, g.regions);
  }

  /** A client's store inside one of its live objects changes nothing of the pool. */
  lemma WriteInv(l: Layout, p: Pool, g: Shape, q: Address, a: Address, v: int)
    requires Inv(l, p, g) && q in g.live && q <= a < q + l.element && a % WORD == 0
    ensures Inv(l, Write(p, a, v), g)
  {
    var p' := Write(p, a, v);
    SlotWord(l, p, g, q, a);
    WriteRegions(l, p, p', g, g, a, v);
    ChainLinks(p.mem, p.first, g.free);
    ChainFrame(p.mem, p'.mem, p.first, g.free);
    SlotsStay(l, p, p', g, g);
  }

  lemma {:induction false} ChainLinks(mem: Memory, head: Address, nodes: seq<Address>)
    requires Chain(mem, head, nodes)
    ensures forall a :: a in nodes ==> a in mem && a != 0
    decreases |nodes|
  {
    if nodes != [] {
      ChainLinks(mem, mem[head], nodes[1..]);
      assert nodes == [nodes[0]] + nodes[1..];
    }
  }

  lemma FreeLinks(p: Pool, p': Pool, g: Shape, g': Shape, q: Address)
    requires FreeOk(p, g) && q in g.live && q in p.mem && q != 0
    requires p'.mem == p.mem[q := p.first] && p'.first == q
    requires g'.free == [q] + g.free && g'.live == g.live - {q}
    ensures FreeOk(p', g') && Slots(g') == Slots(g)
  {
    ChainLinks(p.mem, p.first, g.free);
    ChainFrame(p.mem, p'.mem, p.first, g.free);
    assert g'.free[1..] == g.free;
    forall i, j | 0 <= i < j < |g'.free| ensures g'.free[i] != g'.free[j] {
      assert g'.free[j] == g.free[j - 1];
      if i > 0 { assert g'.free[i] == g.free[i - 1]; }
    }
  }

  /** Freeing a live slot, or null. */
  lemma FreeInv(l: Layout, p: Pool, g: Shape, q: Address)
    requires Inv(l, p, g) && (q == 0 || q in g.live)
    ensures Inv(l, Free(p, q), FreeShape(g, q))
  {
    if q != 0 {
      var p', g' := Free(p, q), FreeShape(g, q);
      assert Placed(l, p, g, q);
      SlotWord(l, p, g, q, q);
      WriteRegions(l, p, p', g, g', q, p.first);
      FreeLinks(p, p', g, g', q);
      SlotsStay(l, p, p', g, g');
    }
  }

  lemma AllocateInv(l: Layout, p: Pool, g: Shape, base: Address, contents: Memory)
    requires Inv(l, p, g) && (NeedsRegion(l, p) ==> FreshRegion(l, g, base, contents))
    ensures Inv(l, Allocate(l, p, base, contents).0, AllocateShape(l, p, g, base))
    ensures HandsOut(Allocate(l, p, base, contents).1, g, AllocateShape(l, p, g, base))
  {
    if g.free != [] {
      PopInv(l, p, g, base, contents);
    } else if p.bump < l.region {
      BumpInv(l, p, g, base, contents);
    } else {
      GrowInv(l, p, g, base, contents);
    }
  }

  lemma ResetInv(l: Layout, p: Pool, g: Shape)
    requires Inv(l, p, g)
    ensures Inv(l, Reset(l, p), Shape([p.current], [], {}, 0))
  {
    var p' := Reset(l, p);
    assert p.current in g.regions;
    assert p.current in RegionWords(l, p.current);
    assert p'.mem.Keys == RegionWords(l, p.current);
    assert Chain(p'.mem, 0, [p.current][1..]);
  }

  // ---------- Whole runs ----------

  datatype Op =
    | Take(base: Address, contents: Memory)   // allocate, with what the allocator would hand out
    | Give(q: Address)                        // free
    | Store(q: Address, a: Address, v: int)   // a client writes a word of its object q
    | Clear                                   // reset

  /** The pool, its abstract view, and the live slots that resets have forgotten. */
  datatype World = World(pool: Pool, shape: Shape, stale: int)

  /** The allocator hands out fresh memory, and clients free and write only what they hold. */
  ghost predicate Legal(l: Layout, w: World, op: Op) {
    match op
    case Take(base, contents) => NeedsRegion(l, w.pool) ==> FreshRegion(l, w.shape, base, contents)
    case Give(q) => q == 0 || q in w.shape.live
    case Store(q, a, _) => q in w.shape.live && q <= a < q + l.element && a % WORD == 0
    case Clear => true
  }

  ghost predicate WorldOk(l: Layout, w: World) {
    Inv(l, w.pool, w.shape) && w.pool.elements == |w.shape.live| + w.stale
  }

  ghost function Do(l: Layout, w: World, op: Op): World {
    match op
    case Take(base, contents) =>
      World(Allocate(l, w.pool, base, contents).0, AllocateShape(l, w.pool, w.shape, base), w.stale)
    case Give(q) => World(Free(w.pool, q), FreeShape(w.shape, q), w.stale)
    case Store(_, a, v) => World(Write(w.pool, a, v), w.shape, w.stale)
    case Clear => World(Reset(l, w.pool), Shape([w.pool.current], [], {}, 0), w.stale + |w.shape.live|)
  }

  lemma DoKeepsWorld(l: Layout, w: World, op: Op)
    requires WorldOk(l, w) && Legal(l, w, op)
    ensures WorldOk(l, Do(l, w, op))
    ensures Do(l, w, op).stale == if op.Clear? then w.stale + |w.shape.live| else w.stale
  {
    match op {
      case Take(base, contents) => AllocateInv(l, w.pool, w.shape, base, contents);
      case Give(q) => FreeInv(l, w.pool, w.shape, q);
      case Store(q, a, v) => WriteInv(l, w.pool, w.shape, q, a, v);
      case Clear => ResetInv(l, w.pool, w.shape);
    }
  }

  /** Legal operations lead from one world to the other. */
  ghost predicate Reaches(l: Layout, w: World, ops: seq<Op>, w': World)
    decreases |ops|
  {
    if ops == [] then w' == w
    else Legal(l, w, ops[0]) && Reaches(l, Do(l, w, ops[0]), ops[1..], w')
  }

  lemma {:induction false} RunKeepsWorld(l: Layout, w: World, ops: seq<Op>, w': World)
    requires WorldOk(l, w) && Reaches(l, w, ops, w')
    ensures WorldOk(l, w')
    decreases |ops|
  {
    if ops != [] {
      DoKeepsWorld(l, w, ops[0]);
      RunKeepsWorld(l, Do(l, w, ops[0]), ops[1..], w');
    }
  }

  lemma {:induction false} RunWithoutReset(l: Layout, w: World, ops: seq<Op>, w': World)
    requires WorldOk(l, w) && Reaches(l, w, ops, w')
    requires forall i :: 0 <= i < |ops| ==> !ops[i].Clear?
    ensures w'.stale == w.stale
    decreases |ops|
  {
    if ops != [] {
      var w1 := Do(l, w, ops[0]);
      DoKeepsWorld(l, w, ops[0]);
      RunWithoutReset(l, w1, ops[1..], w');
    }
  }

  ghost function NewWorld(l: Layout, base: Address, contents: Memory): World {
    World(Create(l, base, contents), Shape([base], [], {}, 0), 0)
  }

  /** The state of a pool after any legal run. */
  ghost predicate Reachable(l: Layout, w: World) {
    exists base, contents: Memory, ops ::
      && Proper(l) && Sized(l) && base > 0 && base % WORD == 0 && contents.Keys == RegionWords(l, base)
      && Reaches(l, NewWorld(l, base, contents), ops, w)
  }

  lemma ReachableOk(l: Layout, w: World)
    requires Reachable(l, w)
    ensures WorldOk(l, w)
  {
    var base, contents: Memory, ops :|
      && Proper(l) && Sized(l) && base > 0 && base % WORD == 0 && contents.Keys == RegionWords(l, base)
      && Reaches(l, NewWorld(l, base, contents), ops, w);
    CreateInv(l, base, contents);
    RunKeepsWorld(l, NewWorld(l, base, contents), ops, w);
  }

  /** Whatever clients do with their objects: live slots never overlap, each lies inside one region past
      its header, none is on the free list, and the free list is a finite chain without repetition. */
  lemma LiveSlotsAreSafe(l: Layout, w: World)
    requires Reachable(l, w)
    ensures forall q, r :: q in w.shape.live && r in w.shape.live && q != r ==> Apart(q, l.element, r, l.element)
    ensures forall q :: q in w.shape.live ==> exists r :: r in w.shape.regions && InRegion(l, r, q)
    ensures forall q, r :: q in w.shape.live && r in w.shape.free ==> Apart(q, l.element, r, l.element)
    ensures Chain(w.pool.mem, w.pool.first, w.shape.free)
    ensures forall i, j :: 0 <= i < j < |w.shape.free| ==> w.shape.free[i] != w.shape.free[j]
  {
    ReachableOk(l, w);
    forall q | q in w.shape.live ensures exists r :: r in w.shape.regions && InRegion(l, r, q) {
      assert q in Slots(w.shape);
      assert Placed(l, w.pool, w.shape, q);
    }
    forall q, r | q in w.shape.live && r in w.shape.free ensures Apart(q, l.element, r, l.element) {
      assert q in Slots(w.shape) && r in Slots(w.shape);
    }
    forall q, r | q in w.shape.live && r in w.shape.live && q != r ensures Apart(q, l.element, r, l.element) {
      assert q in Slots(w.shape) && r in Slots(w.shape);
    }
  }

  /** A new region is taken only when every slot of every region is live. */
  lemma GrowsOnlyWhenFull(l: Layout, w: World)
    requires Reachable(l, w) && NeedsRegion(l, w.pool)
    ensures |w.shape.live| == |w.shape.regions| * l.capacity
  {
    ReachableOk(l, w);
    BumpRoom(l, w.shape.used);
    TimesIsProduct(|w.shape.regions|, l.capacity);
  }

  /** On a run without reset every slot is an element, on the free list, or unused in the current region. */
  lemma Conservation(l: Layout, base: Address, contents: Memory, ops: seq<Op>, w: World)
    requires Proper(l) && Sized(l) && base > 0 && base % WORD == 0 && contents.Keys == RegionWords(l, base)
    requires Reaches(l, NewWorld(l, base, contents), ops, w)
    requires forall i :: 0 <= i < |ops| ==> !ops[i].Clear?
    ensures w.pool.elements == |w.shape.live|
    ensures w.pool.bump == l.header + w.shape.used * l.element
    ensures |w.shape.regions| * l.capacity == w.pool.elements + |w.shape.free| + (l.capacity - w.shape.used)
  {
    CreateInv(l, base, contents);
    RunKeepsWorld(l, NewWorld(l, base, contents), ops, w);
    TimesIsProduct(w.shape.used, l.element);
    RunWithoutReset(l, NewWorld(l, base, contents), ops, w);
    TimesIsProduct(|w.shape.regions|, l.capacity);
  }

  /** A region holds the first slot `allocate` takes from it exactly when the capacity is positive. */
  lemma FirstSlotFits(pointerSize: int, objectSize: int, capacity: int)
    requires 1 <= pointerSize && 1 <= objectSize
    ensures var l := LayoutOf(pointerSize, objectSize, capacity); l.header + l.element <= l.region <==> capacity >= 1
  {
    var element := ElementSize(objectSize);
    if capacity >= 1 { assert capacity * element >= 1 * element; }
    else { assert capacity * element <= 0 * element; }
  }

  /** The slot freed last is allocated next, and the pool is then as it was, but for the word the link
      was in; without freed slots the current region is used up slot by slot. */
  lemma FreedIsReusedFirst(l: Layout, w: World, q: Address, base: Address, contents: Memory)
    requires WorldOk(l, w) && q in w.shape.live
    ensures var (p, r) := Allocate(l, Free(w.pool, q), base, contents);
            r == q && p == w.pool.(mem := w.pool.mem[q := w.pool.first])
  {
    assert q in Slots(w.shape);
    assert Placed(l, w.pool, w.shape, q);
  }

  /** The `k`-th slot in a row taken from a region with no slot freed lies `k` elements past its header. */
  lemma TakenInOrder(l: Layout, w: World, base: Address, contents: Memory)
    requires WorldOk(l, w) && w.shape.free == [] && w.shape.used < l.capacity
    ensures Allocate(l, w.pool, base, contents).1 == w.pool.current + l.header + w.shape.used * l.element
    ensures Do(l, w, Take(base, contents)).shape.used == w.shape.used + 1
  {
    BumpRoom(l, w.shape.used);
    TimesIsProduct(w.shape.used, l.element);
  }

  // ---------- The element count across resets ----------

  /** Every reset of the run is made when no slot is live. */
  ghost predicate ResetsWhenEmpty(l: Layout, w: World, ops: seq<Op>)
    decreases |ops|
  {
    ops == [] || ((ops[0].Clear? ==> w.shape.live == {}) && ResetsWhenEmpty(l, Do(l, w, ops[0]), ops[1..]))
  }

  lemma {:induction false} StaleGrows(l: Layout, w: World, ops: seq<Op>, w': World)
    requires WorldOk(l, w) && Reaches(l, w, ops, w')
    ensures w'.stale >= w.stale
    ensures w'.stale == w.stale <==> ResetsWhenEmpty(l, w, ops)
    decreases |ops|
  {
    if ops != [] {
      DoKeepsWorld(l, w, ops[0]);
      StaleGrows(l, Do(l, w, ops[0]), ops[1..], w');
    }
  }

  /** After a run the element count is the number of live slots exactly when every reset in it was made with
      no slot live: something the owner of the pool knows before it resets. */
  lemma ElementCountIff(l: Layout, base: Address, contents: Memory, ops: seq<Op>, w: World)
    requires Proper(l) && Sized(l) && base > 0 && base % WORD == 0 && contents.Keys == RegionWords(l, base)
    requires Reaches(l, NewWorld(l, base, contents), ops, w)
    ensures w.pool.elements == |w.shape.live| <==> ResetsWhenEmpty(l, NewWorld(l, base, contents), ops)
  {
    CreateInv(l, base, contents);
    RunKeepsWorld(l, NewWorld(l, base, contents), ops, w);
    StaleGrows(l, NewWorld(l, base, contents), ops, w);
  }

  /** For example one allocation and a reset leave a pool with no live slot that reports one element. */
  lemma ElementCountGoesStale(l: Layout, base: Address, contents: Memory)
    requires Proper(l) && Sized(l) && base > 0 && base % WORD == 0 && contents.Keys == RegionWords(l, base)
    ensures var w0 := NewWorld(l, base, contents);
            var ops := [Take(base, contents), Clear];
            var w := Do(l, Do(l, w0, ops[0]), ops[1]);
            Reaches(l, w0, ops, w) && w.shape.live == {} && w.pool.elements == 1
  {
    var w0 := NewWorld(l, base, contents);
    var ops := [Take(base, contents), Clear];
    var w1 := Do(l, w0, ops[0]);
    assert ops[1..] == [Clear] && [Clear][1..] == [];
    assert Reaches(l, w1, ops[1..], Do(l, w1, Clear));
  }
}
