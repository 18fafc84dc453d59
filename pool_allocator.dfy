/** The fixed-size item pool of include/ren_utils/alloc/PoolAllocator.hpp and its
    `new_ptr`/`delete_ptr` pair.

    The pool is one buffer of `total` slots, `step = itemSize + align` bytes apart, where
    `itemSize` is the object size raised to at least the 8 bytes of a pointer. A free slot
    holds, in its first bytes, the address of the next free slot; the model keeps those
    next-pointers in the map `links`, from a slot's address to the address it holds. An
    allocated slot hands out its start moved up by `AlignPtrStore`, with the shift byte in
    the byte before the handed-out address. */
module PoolAllocators {
  import opened Wrappers
  import opened Arith
  import opened Allocator

  /** `sizeof(uint8_t*)`. */
  const POINTER_SIZE: nat := 8

  /** The largest alignment the constructor admits. */
  const MAX_ALIGN: nat := 256

  /** `max(sizeof(T), sizeof(uint8_t*))`. */
  function ItemSize(objSize: nat): (s: nat)
    ensures s >= POINTER_SIZE && s >= objSize
    ensures s == objSize || s == POINTER_SIZE
  {
    if objSize >= POINTER_SIZE then objSize else POINTER_SIZE
  }

  /** The buffer geometry: the address of the first slot, the slot count, the item size
      and the alignment. */
  datatype Layout = Layout(base: nat, total: nat, itemSize: nat, align: nat)
  {
    ghost predicate Valid()
    {
      && total != 0 && IsPowerOfTwo(align) && align <= MAX_ALIGN && itemSize >= POINTER_SIZE
      && 0 < base && base + BufferSize() < WORD
    }

    /** The distance between two slots. */
    function Step(): nat
    {
      itemSize + align
    }

    /** The buffer size the slots need: `total` slots of `step` bytes. */
    function BufferSize(): nat
    {
      total * Step()
    }

    /** `m_pool + i * step`, written as `i` steps from the start. */
    function SlotAddr(i: nat): nat
      decreases i
    {
      if i == 0 then base else SlotAddr(i - 1) + Step()
    }

    /** The address `Alloc` hands out for slot `i`: its start moved up by `AlignPtrStore`
        to the next boundary, or by a whole `align` when already aligned. The object fits in
        the rest of the slot. */
    function AlignedSlot(i: nat): (a: nat)
      requires Valid() && i < total
      ensures base <= SlotAddr(i) < a <= SlotAddr(i) + align
      ensures IsAligned(a, align)
      ensures a + itemSize <= SlotAddr(i) + Step() <= base + BufferSize()
    {
      SlotInside(this, i);
      NextMultiple(SlotAddr(i), align);
      SlotAddr(i) + (align - SlotAddr(i) % align)
    }

    /** Offset in the buffer of the shift byte of slot `i`. */
    function ShiftIndex(i: nat): (k: nat)
      requires Valid() && i < total
      ensures k < BufferSize()
    {
      var a := AlignedSlot(i);
      a - 1 - base
    }
  }

  /** The slot address is the pointer arithmetic of the constructor. */
  lemma {:induction false} SlotAddrFormula(l: Layout, i: nat)
    ensures l.SlotAddr(i) == l.base + i * l.Step()
    decreases i
  {
    if i > 0 {
      SlotAddrFormula(l, i - 1);
      assert (i - 1) * l.Step() + l.Step() == i * l.Step();
    }
  }

  /** Different slots are at different addresses, a whole step apart. */
  lemma {:induction false} SlotsApart(l: Layout, i: nat, j: nat)
    requires i < j
    ensures l.SlotAddr(i) + l.Step() <= l.SlotAddr(j)
    decreases j
  {
    if i < j - 1 {
      SlotsApart(l, i, j - 1);
    }
  }

  /** Different slots start at different addresses. */
  lemma SlotInjective(l: Layout, i: nat, j: nat)
    requires l.Step() > 0 && i != j
    ensures l.SlotAddr(i) != l.SlotAddr(j)
  {
    if i < j {
      SlotsApart(l, i, j);
    } else {
      SlotsApart(l, j, i);
    }
  }

  /** Slot `i` lies inside the buffer. */
  lemma SlotInside(l: Layout, i: nat)
    requires i < l.total
    ensures l.base <= l.SlotAddr(i) && l.SlotAddr(i) + l.Step() <= l.base + l.BufferSize()
  {
    SlotAddrFormula(l, l.total);
    SlotAddrFormula(l, i);
    if i + 1 < l.total {
      SlotsApart(l, i + 1, l.total);
    }
  }

  /** The bytes of two different allocated slots, from the shift byte to the end of the
      object, do not overlap. */
  lemma BlocksDisjoint(l: Layout, i: nat, j: nat)
    requires l.Valid() && i < l.total && j < l.total && i != j
    ensures l.AlignedSlot(i) + l.itemSize <= l.AlignedSlot(j) - 1
            || l.AlignedSlot(j) + l.itemSize <= l.AlignedSlot(i) - 1
  {
    if i < j {
      SlotsApart(l, i, j);
    } else {
      SlotsApart(l, j, i);
    }
  }

  /** The next-pointer a free slot `j` holds in its first `POINTER_SIZE` bytes shares no
      byte with the shift byte or the object of a different slot `i`. */
  lemma LinkAvoidsSlot(l: Layout, i: nat, j: nat)
    requires l.Valid() && i < l.total && j < l.total && i != j
    ensures l.ShiftIndex(i) < l.SlotAddr(j) - l.base || l.SlotAddr(j) - l.base + POINTER_SIZE <= l.ShiftIndex(i)
    ensures l.AlignedSlot(i) + l.itemSize <= l.SlotAddr(j) || l.SlotAddr(j) + POINTER_SIZE <= l.AlignedSlot(i)
  {
    SlotInside(l, j);
    if i < j {
      SlotsApart(l, i, j);
    } else {
      SlotsApart(l, j, i);
    }
  }

  /** The buffer as allocated: `malloc((num_items + align) * item_size)`. */
  function BufferSizeAsWritten(total: nat, itemSize: nat, align: nat): nat
  {
    (total + align) * itemSize
  }

  /** The buffer as allocated is smaller than the slots need exactly when there are more
      items than bytes per item: `(n + a) * s < n * (s + a)` just when `s < n`. */
  lemma BufferTooSmallIff(total: nat, itemSize: nat, align: nat)
    requires align > 0
    ensures BufferSizeAsWritten(total, itemSize, align) < Layout(0, total, itemSize, align).BufferSize()
            <==> itemSize < total
  {
    assert BufferSizeAsWritten(total, itemSize, align) == total * itemSize + align * itemSize;
    assert Layout(0, total, itemSize, align).BufferSize() == total * itemSize + align * total;
    if itemSize < total {
      MulStrict(align, itemSize, total);
    } else {
      MulMonotone(align, total, itemSize);
    }
  }

  lemma MulMonotone(a: nat, x: nat, y: nat)
    requires x <= y
    ensures a * x <= a * y
  {
  }

  lemma MulStrict(a: nat, x: nat, y: nat)
    requires a > 0 && x < y
    ensures a * x < a * y
  {
  }

  /** With 100 items of 8 bytes aligned to 1, `malloc` gets 808 bytes while slot 99 starts
      at offset 891: the constructor's `next` pointer write and every later use of the last
      slots run past the buffer. */
  lemma PoolBufferTooSmall()
    ensures BufferSizeAsWritten(100, 8, 1) == 808
    ensures Layout(1, 100, 8, 1).SlotAddr(99) - 1 == 891
    ensures Layout(1, 100, 8, 1).BufferSize() == 900
  {
    SlotAddrFormula(Layout(1, 100, 8, 1), 99);
  }

  ghost predicate Distinct(s: seq<nat>)
  {
    forall k, l :: 0 <= k < l < |s| ==> s[k] != s[l]
  }

  lemma {:induction false} SubsetCard(a: set<nat>, b: set<nat>)
    requires a <= b
    ensures |a| <= |b|
    decreases b
  {
    if a != {} {
      var x :| x in a;
      SubsetCard(a - {x}, b - {x});
    }
  }

  lemma {:induction false} DistinctCard(s: seq<nat>)
    requires Distinct(s)
    ensures |set x: nat | x in s| == |s|
    decreases |s|
  {
    if s != [] {
      var rest := s[1..];
      DistinctCard(rest);
      forall k | 0 <= k < |rest|
        ensures rest[k] != s[0]
      {
        assert rest[k] == s[k + 1];
      }
      var tail := set x: nat | x in rest;
      assert s[0] !in tail;
      assert (set x: nat | x in s) == tail + {s[0]};
      assert |tail + {s[0]}| == |tail| + 1;
    } else {
      assert (set x: nat | x in s) == {};
    }
  }

  /** The slot numbers below `n`. */
  function Below(n: nat): (r: set<nat>)
    ensures forall x: int :: x in r <==> 0 <= x < n
    ensures |r| == n
  {
    if n == 0 then {} else Below(n - 1) + {n - 1}
  }

  /** A repetition-free list of slots below `n` that misses slot `i` is shorter than `n`. */
  lemma Pigeonhole(s: seq<nat>, n: nat, i: nat)
    requires Distinct(s) && i < n && i !in s
    requires forall k :: 0 <= k < |s| ==> s[k] < n
    ensures |s| < n
  {
    DistinctCard(s);
    SubsetCard((set x: nat | x in s), Below(n) - {i});
  }

  /** `first` and the next pointers in `links` spell out the free list `fl`: `first` is the
      head slot's address, the pointer stored there leads on to the rest of the list, and
      nullptr ends it. Every slot on the list is below `l.total` and appears once. */
  ghost predicate FreeChain(l: Layout, fl: seq<nat>, links: map<nat, Option<nat>>, first: Option<nat>)
    decreases |fl|
  {
    if fl == [] then first == None
    else
      var a := l.SlotAddr(fl[0]);
      && fl[0] < l.total && fl[0] !in fl[1..]
      && first == Some(a) && a in links
      && FreeChain(l, fl[1..], links, links[a])
  }

  /** Storing a pointer in a slot that is not on the free list leaves the list intact. */
  lemma {:induction false} ChainFrame(l: Layout, fl: seq<nat>, links: map<nat, Option<nat>>,
                                      first: Option<nat>, i: nat, v: Option<nat>)
    requires l.Valid() && FreeChain(l, fl, links, first) && i !in fl
    ensures FreeChain(l, fl, links[l.SlotAddr(i) := v], first)
    decreases |fl|
  {
    if fl != [] {
      SlotInjective(l, fl[0], i);
      assert i !in fl[1..];
      ChainFrame(l, fl[1..], links, links[l.SlotAddr(fl[0])], i, v);
    }
  }

  /** The free list holds distinct slots of the pool. */
  lemma {:induction false} ChainDistinct(l: Layout, fl: seq<nat>, links: map<nat, Option<nat>>, first: Option<nat>)
    requires FreeChain(l, fl, links, first)
    ensures Distinct(fl) && forall k :: 0 <= k < |fl| ==> fl[k] < l.total
    decreases |fl|
  {
    if fl != [] {
      var rest := fl[1..];
      ChainDistinct(l, rest, links, links[l.SlotAddr(fl[0])]);
      forall k, m | 0 <= k < m < |fl|
        ensures fl[k] != fl[m]
      {
        assert fl[m] == rest[m - 1];
        if k > 0 {
          assert fl[k] == rest[k - 1];
        }
      }
      forall k | 0 < k < |fl|
        ensures fl[k] < l.total
      {
        assert fl[k] == rest[k - 1];
      }
    }
  }

  /** Every slot not on the free list `fl` has its shift byte in place in `mem`. */
  ghost predicate ShiftsOk(l: Layout, fl: seq<nat>, mem: seq<byte>)
    requires l.Valid() && |mem| == l.BufferSize()
  {
    forall i: nat {:trigger l.ShiftIndex(i)} :: i < l.total && i !in fl ==>
      mem[l.ShiftIndex(i)] == EncodeShift(l.AlignedSlot(i) - l.SlotAddr(i))
  }

  /** Putting a slot that is not on the free list at its head: the slot stores the old
      head, and no other free slot's pointer changes. */
  lemma PushFreeList(l: Layout, fl: seq<nat>, links: map<nat, Option<nat>>, first: Option<nat>, i: nat)
    requires l.Valid() && FreeChain(l, fl, links, first) && i < l.total && i !in fl
    ensures FreeChain(l, [i] + fl, links[l.SlotAddr(i) := first], Some(l.SlotAddr(i)))
  {
    ChainFrame(l, fl, links, first, i, first);
    assert ([i] + fl)[1..] == fl;
  }

  /** Writing the head slot's shift byte, as `Alloc` does, leaves every other allocated
      slot's shift byte alone. */
  lemma StoreKeepsShifts(l: Layout, fl: seq<nat>, mem: seq<byte>)
    requires l.Valid() && |mem| == l.BufferSize() && fl != [] && fl[0] < l.total
    requires ShiftsOk(l, fl, mem)
    ensures var i := fl[0];
            ShiftsOk(l, fl[1..], mem[l.ShiftIndex(i) := EncodeShift(l.AlignedSlot(i) - l.SlotAddr(i))])
  {
    var i := fl[0];
    var mem' := mem[l.ShiftIndex(i) := EncodeShift(l.AlignedSlot(i) - l.SlotAddr(i))];
    forall j: nat | j < l.total && j !in fl[1..]
      ensures mem'[l.ShiftIndex(j)] == EncodeShift(l.AlignedSlot(j) - l.SlotAddr(j))
    {
      if j != i {
        ShiftsApart(l, i, j);
        NotInTail(fl, j);
        assert mem[l.ShiftIndex(j)] == EncodeShift(l.AlignedSlot(j) - l.SlotAddr(j));
        assert mem'[l.ShiftIndex(j)] == mem[l.ShiftIndex(j)];
      } else {
        assert mem'[l.ShiftIndex(i)] == EncodeShift(l.AlignedSlot(i) - l.SlotAddr(i));
      }
    }
  }

  /** Different slots keep their shift bytes at different offsets. */
  lemma ShiftsApart(l: Layout, i: nat, j: nat)
    requires l.Valid() && i < l.total && j < l.total && i != j
    ensures l.ShiftIndex(i) != l.ShiftIndex(j)
  {
    BlocksDisjoint(l, i, j);
  }

  /** A slot that is neither the head of a list nor in its tail is not on the list. */
  lemma NotInTail(fl: seq<nat>, j: nat)
    requires fl != [] && j != fl[0] && j !in fl[1..]
    ensures j !in fl
  {
    assert fl == [fl[0]] + fl[1..];
  }

  /** The step `Free` takes for allocated slot `i`: the shift byte leads back to the slot's
      start, the list has room for one more slot, and pushing the slot at the head keeps
      both the free chain and the shift bytes of the slots still allocated. */
  lemma FreeStep(l: Layout, fl: seq<nat>, links: map<nat, Option<nat>>, first: Option<nat>,
                 mem: seq<byte>, i: nat)
    requires l.Valid() && |mem| == l.BufferSize()
    requires FreeChain(l, fl, links, first) && ShiftsOk(l, fl, mem)
    requires i < l.total && i !in fl
    ensures UnalignPtr(mem, l.base, l.AlignedSlot(i)) == l.SlotAddr(i)
    ensures |fl| < l.total
    ensures FreeChain(l, [i] + fl, links[l.SlotAddr(i) := first], Some(l.SlotAddr(i)))
    ensures ShiftsOk(l, [i] + fl, mem)
  {
    assert mem[l.ShiftIndex(i)] == EncodeShift(l.AlignedSlot(i) - l.SlotAddr(i));
    UnalignReadsShift(mem, l.base, l.AlignedSlot(i), l.SlotAddr(i));
    ChainDistinct(l, fl, links, first);
    Pigeonhole(fl, l.total, i);
    PushFreeList(l, fl, links, first, i);
    forall j: nat | j < l.total && j !in [i] + fl
      ensures mem[l.ShiftIndex(j)] == EncodeShift(l.AlignedSlot(j) - l.SlotAddr(j))
    {
      assert j !in fl;
    }
  }

  /** What `Alloc` relies on: the head of a non-empty free list is `first`, its stored
      pointer heads the rest of the list, and writing the head slot's shift byte keeps the
      shift bytes of the slots allocated once it leaves the list. */
  lemma AllocStep(l: Layout, fl: seq<nat>, links: map<nat, Option<nat>>, first: Option<nat>, mem: seq<byte>)
    requires l.Valid() && |mem| == l.BufferSize()
    requires FreeChain(l, fl, links, first) && ShiftsOk(l, fl, mem) && fl != []
    ensures fl[0] < l.total && fl[0] !in fl[1..]
    ensures first == Some(l.SlotAddr(fl[0])) && l.SlotAddr(fl[0]) in links
    ensures FreeChain(l, fl[1..], links, links[l.SlotAddr(fl[0])])
    ensures ShiftsOk(l, fl[1..], mem[l.ShiftIndex(fl[0]) := EncodeShift(l.AlignedSlot(fl[0]) - l.SlotAddr(fl[0]))])
  {
    StoreKeepsShifts(l, fl, mem);
  }

  /** The free list the constructor builds, from slot `j` on: every later slot, in address
      order, each linked to its right neighbour and the last one to nullptr. */
  lemma {:induction false} InitialChain(l: Layout, links: map<nat, Option<nat>>, j: nat)
    requires j <= l.total
    requires forall k :: 0 <= k < l.total ==> l.SlotAddr(k) in links
    requires forall k :: 0 <= k < l.total ==>
               links[l.SlotAddr(k)] == (if k == l.total - 1 then None else Some(l.SlotAddr(k) + l.Step()))
    ensures FreeChain(l, seq(l.total - j, k => j + k), links, if j == l.total then None else Some(l.SlotAddr(j)))
    decreases l.total - j
  {
    if j < l.total {
      InitialChain(l, links, j + 1);
      var fl: seq<nat> := seq(l.total - j, k => j + k);
      assert fl[1..] == seq(l.total - (j + 1), k => j + 1 + k);
      assert fl[0] == j;
      assert j !in fl[1..];
      assert l.SlotAddr(j + 1) == l.SlotAddr(j) + l.Step();
    }
  }

  /** The constructor's loop: the first bytes of slot `i` point to slot `i + 1`, and those
      of the last slot hold nullptr. */
  method LinkSlots(l: Layout) returns (links: map<nat, Option<nat>>)
    requires l.total != 0 && l.Step() > 0
    ensures forall k :: 0 <= k < l.total ==> l.SlotAddr(k) in links
    ensures forall k :: 0 <= k < l.total ==>
              links[l.SlotAddr(k)] == (if k == l.total - 1 then None else Some(l.SlotAddr(k) + l.Step()))
  {
    var step := l.Step();
    links := map[];
    for i := 0 to l.total
      invariant forall k :: 0 <= k < i ==> l.SlotAddr(k) in links
      invariant forall k :: 0 <= k < i ==>
                  links[l.SlotAddr(k)] == (if k == l.total - 1 then None else Some(l.SlotAddr(k) + l.Step()))
    {
      var next := if i == l.total - 1 then None else Some(l.base + (i + 1) * step);
      SlotAddrFormula(l, i);
      SlotAddrFormula(l, i + 1);
      forall k | 0 <= k < i
        ensures l.SlotAddr(k) != l.SlotAddr(i)
      {
        SlotInjective(l, k, i);
      }
      links := links[l.base + i * step := next];
    }
  }

  class PoolAllocator {
    /** Address of `m_pool`. */
    const poolBase: nat
    /** `m_total`. */
    const total: nat
    /** `m_align`. */
    const align: nat
    /** `item_size` of the constructor. */
    ghost const itemSize: nat
    /** The buffer geometry these fields describe. */
    ghost const geometry: Layout
    /** The bytes of `m_pool`, of which the model reads only the shift bytes. */
    const mem: array<byte>
    /** The `next` pointer stored in each free slot, by slot address (None for nullptr). */
    var links: map<nat, Option<nat>>
    /** `m_first`. */
    var first: Option<nat>
    /** `m_used`. */
    var used: nat
    /** The free list as slot indices, from `m_first` on. */
    ghost var freeList: seq<nat>


    /** A slot is allocated exactly when it is not on the free list. */
    ghost predicate Allocated(i: nat)
      reads this
    {
      i < total && i !in freeList
    }

    ghost predicate Valid()
      reads this, mem
    {
      && geometry == Layout(poolBase, total, itemSize, align)
      && geometry.Valid() && mem.Length == geometry.BufferSize()
      && used + |freeList| == total
      && FreeChain(geometry, freeList, links, first)
      && ShiftsOk(geometry, freeList, mem[..])
    }

    /** `PoolAllocator(num_items, align)` for objects of `objSize` bytes: every slot is free
        and links to its right neighbour, the last one to nullptr. The constructor asserts
        `num_items != 0` and `0 < align <= 256`, and the alignment must be a power of two;
        `poolBase` is where `malloc` put the buffer, sized here for all `num_items` slots. */
    constructor (numItems: nat, align: nat, objSize: nat, poolBase: nat)
      requires numItems != 0 && IsPowerOfTwo(align) && align <= MAX_ALIGN
      requires 0 < poolBase && poolBase + numItems * (ItemSize(objSize) + align) < WORD
      ensures Valid() && fresh(mem)
      ensures total == numItems && this.align == align && itemSize == ItemSize(objSize)
      ensures used == 0 && freeList == seq(numItems, k => k)
      ensures first == Some(poolBase)
    {
      var itemSize := ItemSize(objSize);
      var step := itemSize + align;
      this.poolBase := poolBase;
      this.total := numItems;
      this.align := align;
      this.itemSize := itemSize;
      this.geometry := Layout(poolBase, numItems, itemSize, align);
      this.mem := new byte[numItems * step];
      this.used := 0;
      var l := Layout(poolBase, numItems, itemSize, align);
      var links := LinkSlots(l);
      InitialChain(l, links, 0);
      assert seq(numItems - 0, k => 0 + k) == seq(numItems, k => k);
      SlotAddrFormula(l, 0);
      this.links := links;
      this.first := Some(poolBase);
      this.freeList := seq(numItems, k => k);
      new;
      forall i: nat | i < total
        ensures i in freeList
      {
        assert freeList[i] == i;
      }
    }

    /** The first half of `Alloc`: take the head slot off the free list and make its `next`
        pointer the new head. The shift byte is not yet stored, so the slot's shift byte is
        the one obligation of `Valid` left to the caller. */
    method PopHead() returns (raw: nat)
      requires Valid() && used < total
      modifies this
      ensures old(freeList) != [] && raw == geometry.SlotAddr(old(freeList)[0])
      ensures old(first) == Some(raw) && raw in links && first == links[raw] && links == old(links)
      ensures freeList == old(freeList)[1..] && used == old(used) + 1
      ensures Allocated(old(freeList)[0]) && used + |freeList| == total
      ensures FreeChain(geometry, freeList, links, first) && mem[..] == old(mem[..])
      ensures ShiftsOk(geometry, freeList, mem[..][geometry.ShiftIndex(old(freeList)[0]) :=
                         EncodeShift(geometry.AlignedSlot(old(freeList)[0]) - raw)])
    {
      ghost var fl := freeList;
      AllocStep(geometry, fl, links, first, mem[..]);
      raw := first.value;
      first := links[raw];
      used := used + 1;
      freeList := fl[1..];
    }

    /** `Alloc()`: nullptr when every slot is in use; otherwise take the first free slot,
        make its `next` pointer the new head and hand out its aligned address, with the
        shift in the byte before it. */
    method Alloc() returns (p: Option<nat>)
      requires Valid()
      modifies this, mem
      ensures Valid()
      ensures p.None? <==> old(used) == total
      ensures p.None? ==> used == old(used) && freeList == old(freeList) && first == old(first)
      ensures p.None? ==> mem[..] == old(mem[..])
      ensures p.Some? ==> old(freeList) != [] && p.value == geometry.AlignedSlot(old(freeList)[0])
      ensures p.Some? ==> freeList == old(freeList)[1..] && used == old(used) + 1
      ensures p.Some? ==> IsAligned(p.value, align) && Allocated(old(freeList)[0])
      ensures p.Some? ==> old(first) == Some(geometry.SlotAddr(old(freeList)[0]))
                          && geometry.SlotAddr(old(freeList)[0]) in links
                          && first == links[geometry.SlotAddr(old(freeList)[0])]
      ensures p.Some? ==> mem[..] == old(mem[..])[geometry.ShiftIndex(old(freeList)[0]) :=
                                        EncodeShift(p.value - geometry.SlotAddr(old(freeList)[0]))]
      ensures links == old(links)
    {
      if used == total {
        return None;
      }
      ghost var slot := freeList[0];
      var raw := PopHead();
      SlotInside(geometry, slot);
      ghost var before := mem[..];
      var aligned := AlignPtrStore(mem, poolBase, raw, align);
      StoreShiftIsNextMultiple(raw, align);
      assert aligned == geometry.AlignedSlot(slot);
      ghost var k := geometry.ShiftIndex(slot);
      assert k == aligned - 1 - poolBase;
      assert mem[..] == before[k := EncodeShift(aligned - raw)];
      assert ShiftsOk(geometry, freeList, mem[..]);
      assert before == old(mem[..]) && slot == old(freeList)[0] && raw == geometry.SlotAddr(slot);
      assert mem[..] == old(mem[..])[geometry.ShiftIndex(old(freeList)[0]) :=
                          EncodeShift(aligned - geometry.SlotAddr(old(freeList)[0]))];
      return Some(aligned);
    }

    /** `Free(ptr)`: nothing for nullptr; otherwise read the shift byte, step back to the
        slot's start, store the current head there and make the slot the new head. `ptr` must
        be an address this pool handed out and that has not been freed since. */
    method Free(p: Option<nat>)
      requires Valid()
      requires p.Some? ==> exists i :: Allocated(i) && p.value == geometry.AlignedSlot(i)
      modifies this
      ensures Valid()
      ensures p.None? ==> used == old(used) && freeList == old(freeList) && links == old(links)
      ensures p.None? ==> first == old(first)
      ensures p.Some? ==> |freeList| == |old(freeList)| + 1 && freeList[1..] == old(freeList)
      ensures p.Some? ==> p.value == geometry.AlignedSlot(freeList[0]) && used == old(used) - 1
      ensures p.Some? ==> first == Some(geometry.SlotAddr(freeList[0]))
    {
      if p.None? {
        return;
      }
      ghost var l := geometry;
      ghost var i :| Allocated(i) && p.value == l.AlignedSlot(i);
      ghost var fl := freeList;
      FreeStep(l, fl, links, first, mem[..], i);
      var orig := UnalignPtr(mem[..], poolBase, p.value);
      links := links[orig := first];
      first := Some(orig);
      used := used - 1;
      freeList := [i] + fl;
    }

    /** `Delete(ptr)`: destroy the object, then `Free` it. */
    method Delete(p: Option<nat>)
      requires Valid()
      requires p.Some? ==> exists i :: Allocated(i) && p.value == geometry.AlignedSlot(i)
      modifies this
      ensures Valid()
      ensures p.None? ==> used == old(used) && freeList == old(freeList) && first == old(first)
      ensures p.Some? ==> |freeList| == |old(freeList)| + 1 && freeList[1..] == old(freeList)
      ensures p.Some? ==> p.value == geometry.AlignedSlot(freeList[0]) && used == old(used) - 1
    {
      Free(p);
    }

    /** `GetFree()`. */
    function GetFree(): (n: nat)
      reads this, mem
      requires Valid()
      ensures n == |freeList| && n + GetUsed() == GetTotal()
    {
      total - used
    }

    /** `GetUsed()`: the number of allocated slots. */
    function GetUsed(): (n: nat)
      reads this, mem
      requires Valid()
      ensures n <= GetTotal() && n == total - |freeList|
    {
      used
    }

    /** `GetTotal()`. */
    function GetTotal(): (n: nat)
      reads this, mem
      requires Valid()
      ensures n > 0
    {
      total
    }

    /** `GetAlign()`. */
    function GetAlign(): (n: nat)
      reads this, mem
      requires Valid()
      ensures IsPowerOfTwo(n) && n <= MAX_ALIGN
    {
      align
    }
  }

  /** `new_ptr(alloc)`: the handle of a fresh object, or runtime_error when the pool is full. */
  method NewPtr(alloc: PoolAllocator) returns (r: Result<Ptr<PoolAllocator>>)
    requires alloc.Valid()
    modifies alloc, alloc.mem
    ensures alloc.Valid()
    ensures r.Err? <==> old(alloc.used) == alloc.total
    ensures r.Err? ==> r.error == RuntimeError && alloc.used == old(alloc.used)
    ensures r.Err? ==> alloc.freeList == old(alloc.freeList) && alloc.first == old(alloc.first)
                       && alloc.mem[..] == old(alloc.mem[..])
    ensures r.Ok? ==> r.value.data == alloc && r.value.NonNull()
    ensures r.Ok? ==> r.value.Get() == alloc.geometry.AlignedSlot(old(alloc.freeList)[0])
    ensures r.Ok? ==> alloc.freeList == old(alloc.freeList)[1..] && alloc.used == old(alloc.used) + 1
    ensures r.Ok? ==> alloc.mem[..] == old(alloc.mem[..])[alloc.geometry.ShiftIndex(old(alloc.freeList)[0]) :=
                        EncodeShift(r.value.Get() - alloc.geometry.SlotAddr(old(alloc.freeList)[0]))]
  {
    var p := alloc.Alloc();
    if p.None? {
      return Err(RuntimeError);
    }
    return Ok(Ptr(p, alloc));
  }

  /** `delete_ptr(ptr)`: `Delete` the object through the handle's allocator. Unlike the stack
      allocators' `delete_ptr`, the handle is left holding its pointer. */
  method DeletePtr(h: Ptr<PoolAllocator>)
    requires h.data.Valid()
    requires h.NonNull() ==> exists i :: h.data.Allocated(i) && h.Get() == h.data.geometry.AlignedSlot(i)
    modifies h.data
    ensures h.data.Valid()
    ensures h.ptr.None? ==> h.data.used == old(h.data.used) && h.data.freeList == old(h.data.freeList)
    ensures h.NonNull() ==> |h.data.freeList| == |old(h.data.freeList)| + 1
    ensures h.NonNull() ==> h.data.freeList[1..] == old(h.data.freeList)
    ensures h.NonNull() ==> h.Get() == h.data.geometry.AlignedSlot(h.data.freeList[0])
    ensures h.NonNull() ==> h.data.used == old(h.data.used) - 1
  {
    h.data.Delete(h.ptr);
  }
}
