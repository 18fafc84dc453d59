/** The single-ended bump allocator: the class declared in
    include/ren_utils/alloc/StackAllocator.h and defined in src/alloc/StackAllocator.cpp,
    with its `new_ptr`/`delete_ptr` handle pair.

    The arena is `mem`, whose first byte is at address `base`; an allocation is the address
    `base + offset`. The bytes are only ever read by `GetAlignedBase`. */
module StackAllocators {
  import opened Wrappers
  import opened Allocator

  /** A position in the stack: the value of the cursor when it was taken. */
  type Marker = nat

  /** `StackAllocator::InvalidMarker`, that is `Marker(-1)`. */
  const INVALID_MARKER: Marker := WORD - 1

  /** The stack sizes the constructor accepts. */
  predicate ValidStackSize(size: nat)
  {
    size != 0 && size != INVALID_MARKER
  }

  /** The cursor arithmetic of the allocator as a value: the reference the class's
      methods are specified against and the lemmas about sequences of calls speak of. */
  datatype Stack = Stack(base: nat, size: nat, top: nat)
  {
    ghost predicate Valid()
    {
      top <= size
    }

    /** `Alloc(n)`: the new cursor and the address handed out, or None (nullptr). */
    function Alloc(n: nat): (Stack, Option<nat>)
    {
      if top + n > size then (this, None) else (this.(top := top + n), Some(base + top))
    }

    /** `FreeToMarker(m)`: the rolled-back stack, or invalid_argument. */
    function FreeToMarker(m: Marker): Result<Stack>
    {
      if m > top then Err(InvalidArgument) else Ok(this.(top := m))
    }

    /** Runs `Alloc` on each size of `ns` in turn: the final stack and every result. */
    function AllocAll(ns: seq<nat>): (Stack, seq<Option<nat>>)
      decreases |ns|
    {
      if ns == [] then (this, [])
      else
        var (s, p) := Alloc(ns[0]);
        var (t, ps) := s.AllocAll(ns[1..]);
        (t, [p] + ps)
    }
  }

  function Sum(ns: seq<nat>): nat
    decreases |ns|
  {
    if ns == [] then 0 else ns[0] + Sum(ns[1..])
  }

  /** Every block a run of allocations hands out lies between the cursor before and the
      cursor after the run, inside the stack, and each one ends before the next begins: the
      blocks are pairwise disjoint and in address order. */
  lemma {:induction false} AllocAllInside(s: Stack, ns: seq<nat>)
    requires s.Valid()
    ensures var (t, ps) := s.AllocAll(ns);
            && t.Valid() && t.base == s.base && t.size == s.size && s.top <= t.top
            && |ps| == |ns|
            && (forall i :: 0 <= i < |ps| && ps[i].Some? ==>
                  s.base + s.top <= ps[i].value && ps[i].value + ns[i] <= s.base + t.top)
            && (forall i, j :: 0 <= i < j < |ps| && ps[i].Some? && ps[j].Some? ==>
                  ps[i].value + ns[i] <= ps[j].value)
    decreases |ns|
  {
    if ns != [] {
      var (s1, p) := s.Alloc(ns[0]);
      AllocAllInside(s1, ns[1..]);
      var (t, ps) := s.AllocAll(ns);
      assert ps == [p] + s1.AllocAll(ns[1..]).1;
      forall i | 0 < i < |ps| && ps[i].Some?
        ensures s1.base + s1.top <= ps[i].value
      {
        assert ps[i] == s1.AllocAll(ns[1..]).1[i - 1];
      }
    }
  }

  /** Allocations whose sizes add up to no more than the free room all succeed, each at the
      end of the one before, and the cursor advances by their total. */
  lemma {:induction false} AllocAllFits(s: Stack, ns: seq<nat>)
    requires s.top + Sum(ns) <= s.size
    ensures var (t, ps) := s.AllocAll(ns);
            && t == s.(top := s.top + Sum(ns))
            && |ps| == |ns|
            && (forall i :: 0 <= i < |ps| ==> ps[i] == Some(s.base + s.top + Sum(ns[..i])))
    decreases |ns|
  {
    if ns != [] {
      var (s1, p) := s.Alloc(ns[0]);
      assert s1 == s.(top := s.top + ns[0]);
      AllocAllFits(s1, ns[1..]);
      var (t, ps) := s.AllocAll(ns);
      assert ps == [p] + s1.AllocAll(ns[1..]).1;
      forall i | 0 <= i < |ps|
        ensures ps[i] == Some(s.base + s.top + Sum(ns[..i]))
      {
        if i > 0 {
          assert ns[..i][1..] == ns[1..][..i - 1];
          assert ps[i] == s1.AllocAll(ns[1..]).1[i - 1];
        } else {
          assert ns[..0] == [];
        }
      }
    }
  }

  /** A marker taken before any run of allocations rolls the stack back to exactly where it
      was: `FreeToMarker(GetMarker())` undoes everything allocated since. */
  lemma MarkerRestores(s: Stack, ns: seq<nat>)
    requires s.Valid()
    ensures s.AllocAll(ns).0.FreeToMarker(s.top) == Ok(s)
  {
    AllocAllInside(s, ns);
  }

  /** After rolling back to a marker, a marker taken later (higher up) is refused: the
      wrong-order `delete_ptr` of a higher handle fails. */
  lemma StaleMarkerRefused(s: Stack, lower: Marker, higher: Marker)
    requires lower < higher && s.FreeToMarker(lower).Ok?
    ensures s.FreeToMarker(lower).value.FreeToMarker(higher) == Err(InvalidArgument)
  {
  }

  /** The guard of `Alloc` as compiled, `m_pTop + n_bytes > m_totalStackSize` in size_t
      arithmetic, and the cursor it then stores. */
  function AllocAsWritten(top: nat, size: nat, n: nat): (r: Option<nat>)
    ensures top + n < WORD ==> (r.Some? <==> top + n <= size)
    ensures top + n < WORD && r.Some? ==> r.value == top + n
  {
    if AddWrap(top, n) > size then None else Some(AddWrap(top, n))
  }

  /** The 64-bit sum wraps: a request for 2^64 - 1 bytes in a 10-byte stack with one byte
      used passes the guard and moves the cursor back to 0. */
  lemma AllocGuardWraps()
    ensures AllocAsWritten(1, 10, WORD - 1) == Some(0)
    ensures Stack(0, 10, 1).Alloc(WORD - 1).1 == None
  {
  }

  /** `GetAlignedBase` does not undo the aligned `Alloc(n, align)`, which stores no shift
      byte: from cursor 4 of a zero-filled 64-byte stack at address 1024, `Alloc(4, Align(4))`
      hands out 1028, and unaligning 1028 gives 772, below the stack. */
  lemma AlignedAllocNotRecoverable()
    ensures AlignPtr(1024 + 4, 4) == 1028
    ensures UnalignPtr(seq(64, _ => 0 as byte), 1024, 1028) == 772
  {
    AlignPtrFixesAligned(1028, 4);
  }

  class StackAllocator {
    /** Address of `m_stack`. */
    const base: nat
    /** `m_totalStackSize`. */
    const size: nat
    /** The bytes of `m_stack`. */
    const mem: array<byte>
    /** `m_pTop`. */
    var top: nat

    ghost predicate Valid()
      reads this
    {
      && ValidStackSize(size) && mem.Length == size && top <= size
      && 0 < base && base + size < WORD
    }

    function State(): Stack
      reads this
    {
      Stack(base, size, top)
    }

    /** The constructor once its size check has passed; `base` is where `new uint8_t[]`
        put the stack. */
    constructor (stackSize: nat, base: nat)
      requires ValidStackSize(stackSize) && 0 < base && base + stackSize < WORD
      ensures Valid() && fresh(mem)
      ensures this.size == stackSize && this.base == base && top == 0
    {
      this.base := base;
      this.size := stackSize;
      this.mem := new byte[stackSize];
      this.top := 0;
    }

    /** `StackAllocator(stack_size)`: invalid_argument for 0 and `InvalidMarker`, else an
        empty stack. */
    static method Create(stackSize: nat, base: nat) returns (r: Result<StackAllocator>)
      requires ValidStackSize(stackSize) ==> 0 < base && base + stackSize < WORD
      ensures r.Err? <==> !ValidStackSize(stackSize)
      ensures r.Err? ==> r.error == InvalidArgument
      ensures r.Ok? ==> fresh(r.value) && fresh(r.value.mem) && r.value.Valid()
      ensures r.Ok? ==> r.value.size == stackSize && r.value.base == base && r.value.top == 0
    {
      if stackSize == 0 || stackSize == INVALID_MARKER {
        return Err(InvalidArgument);
      }
      var a := new StackAllocator(stackSize, base);
      return Ok(a);
    }

    /** `Alloc(n_bytes)`: all or nothing. */
    method Alloc(n: nat) returns (p: Option<nat>)
      requires Valid()
      modifies this`top
      ensures Valid() && (State(), p) == old(State()).Alloc(n)
      ensures p.Some? <==> old(top) + n <= size
      ensures p.Some? ==> p.value == base + old(top) && top == old(top) + n
      ensures p.None? ==> top == old(top)
    {
      if top + n > size {
        return None;
      }
      var offset := top;
      top := top + n;
      return Some(base + offset);
    }

    /** `Alloc(n_bytes, Align)`: reserve `n + align - 1` bytes and round the block's start up
        with `AlignPtr`. No shift byte is written. */
    method AllocAligned(n: nat, align: nat) returns (p: Option<nat>)
      requires Valid() && IsPowerOfTwo(align) && align < WORD
      modifies this`top
      ensures Valid()
      ensures p.Some? <==> old(top) + (n + align - 1) <= size
      ensures p.None? ==> top == old(top)
      ensures p.Some? ==> top == old(top) + (n + align - 1)
      ensures p.Some? ==> p == Some(AlignPtr(base + old(top), align))
      ensures p.Some? ==> IsAligned(p.value, align)
      ensures p.Some? ==> base + old(top) <= p.value && p.value + n <= base + top
    {
      var block := Alloc(n + align - 1);
      if block.None? {
        return None;
      }
      return Some(AlignPtr(block.value, align));
    }

    /** `GetAlignedBase(p)`: nullptr for nullptr, otherwise `UnalignPtr`, which reads the
        byte before `p`; that byte must lie in the stack. */
    function GetAlignedBase(p: Option<nat>): (r: Option<nat>)
      reads this, mem
      requires Valid()
      requires p.Some? ==> base < p.value <= base + size
      ensures r.None? <==> p.None?
      ensures p.Some? ==> r == Some(UnalignPtr(mem[..], base, p.value))
    {
      if p.None? then None else Some(UnalignPtr(mem[..], base, p.value))
    }

    /** `GetMarker()`. */
    function GetMarker(): (m: Marker)
      reads this
      requires Valid()
      ensures m <= GetSize() && m == GetCurrentSize()
    {
      top
    }

    /** `FreeToMarker(marker)`: invalid_argument for a marker above the cursor. Any marker at
        or below it is accepted, even one already passed by an earlier rollback. */
    method FreeToMarker(m: Marker) returns (o: Outcome)
      requires Valid()
      modifies this`top
      ensures Valid()
      ensures old(State()).FreeToMarker(m) == (if o.Pass? then Ok(State()) else Err(o.error))
      ensures o.Fail? <==> m > old(top)
      ensures o.Fail? ==> o.error == InvalidArgument && top == old(top)
      ensures o.Pass? ==> top == m
    {
      if m > top {
        return Fail(InvalidArgument);
      }
      top := m;
      return Pass;
    }

    /** `Clear()`. */
    method Clear()
      requires Valid()
      modifies this`top
      ensures Valid() && top == 0 && GetCurrentSize() == 0 && Empty()
    {
      top := 0;
    }

    /** `GetSize()`. */
    function GetSize(): (n: nat)
      reads this
      requires Valid()
      ensures ValidStackSize(n)
    {
      size
    }

    /** `GetCurrentSize()`. */
    function GetCurrentSize(): (n: nat)
      reads this
      requires Valid()
      ensures n <= GetSize()
    {
      top
    }

    /** `Empty()`. */
    predicate Empty()
      reads this
      requires Valid()
      ensures Empty() <==> GetCurrentSize() == 0 && GetMarker() == 0
    {
      top == 0
    }
  }

  /** `StackAllocator::PtrData`: the marker taken before the allocation and the allocator. */
  datatype PtrData = PtrData(marker: Marker, alloc: StackAllocator)

  /** The part of `_new_ptr` after the allocation: a handle, or runtime_error for nullptr. */
  function WrapPtr(marker: Marker, alloc: StackAllocator, p: Option<nat>): (r: Result<Ptr<PtrData>>)
    ensures r.Err? <==> p.None?
    ensures r.Err? ==> r.error == RuntimeError
    ensures r.Ok? ==> r.value.NonNull() && r.value.ptr == p && r.value.data == PtrData(marker, alloc)
  {
    if p.None? then Err(RuntimeError) else Ok(Ptr(p, PtrData(marker, alloc)))
  }

  /** `new_ptr<T>(alloc, args...)` for an object of `objSize` bytes: the marker is taken
      before `Alloc`, and a failed allocation throws instead of returning a null handle. */
  method NewPtr(alloc: StackAllocator, objSize: nat) returns (r: Result<Ptr<PtrData>>)
    requires alloc.Valid()
    modifies alloc`top
    ensures alloc.Valid()
    ensures r.Err? <==> old(alloc.top) + objSize > alloc.size
    ensures r.Err? ==> r.error == RuntimeError && alloc.top == old(alloc.top)
    ensures r.Ok? ==> r.value.ptr == Some(alloc.base + old(alloc.top))
    ensures r.Ok? ==> r.value.data == PtrData(old(alloc.top), alloc)
    ensures r.Ok? ==> alloc.top == old(alloc.top) + objSize
  {
    var marker := alloc.GetMarker();
    var p := alloc.Alloc(objSize);
    r := WrapPtr(marker, alloc, p);
  }

  /** `new_ptr<T>(alloc, Align, args...)`: as `NewPtr`, through the aligned allocation. */
  method NewPtrAligned(alloc: StackAllocator, align: nat, objSize: nat) returns (r: Result<Ptr<PtrData>>)
    requires alloc.Valid() && IsPowerOfTwo(align) && align < WORD
    modifies alloc`top
    ensures alloc.Valid()
    ensures r.Err? <==> old(alloc.top) + (objSize + align - 1) > alloc.size
    ensures r.Err? ==> r.error == RuntimeError && alloc.top == old(alloc.top)
    ensures r.Ok? ==> r.value.NonNull() && IsAligned(r.value.Get(), align)
    ensures r.Ok? ==> r.value.ptr == Some(AlignPtr(alloc.base + old(alloc.top), align))
    ensures r.Ok? ==> alloc.base + old(alloc.top) <= r.value.Get() && r.value.Get() + objSize <= alloc.base + alloc.top
    ensures r.Ok? ==> r.value.data == PtrData(old(alloc.top), alloc)
    ensures r.Ok? ==> alloc.top == old(alloc.top) + (objSize + align - 1)
  {
    var marker := alloc.GetMarker();
    var p := alloc.AllocAligned(objSize, align);
    r := WrapPtr(marker, alloc, p);
  }

  /** `delete_ptr(ptr)`: destroy the object, roll the allocator back to the handle's marker
      and null the handle. When the marker is above the cursor (a lower handle was deleted
      first) `FreeToMarker` throws invalid_argument and the handle keeps its pointer. */
  method DeletePtr(h: Ptr<PtrData>) returns (h': Ptr<PtrData>, o: Outcome)
    requires h.NonNull() && h.data.alloc.Valid()
    modifies h.data.alloc`top
    ensures h.data.alloc.Valid()
    ensures o.Fail? <==> h.data.marker > old(h.data.alloc.top)
    ensures o.Fail? ==> o.error == InvalidArgument && h' == h && h.data.alloc.top == old(h.data.alloc.top)
    ensures o.Pass? ==> h' == h.(ptr := None) && h.data.alloc.top == h.data.marker
  {
    o := h.data.alloc.FreeToMarker(h.data.marker);
    if o.Fail? {
      return h, o;
    }
    h' := h.(ptr := None);
  }
}
